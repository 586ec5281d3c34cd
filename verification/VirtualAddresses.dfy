/** From virtual addresses to table indices, and the mapping theorems on addresses. */
module VirtualAddresses {
  import opened Base
  import opened Pmm
  import opened PageTables
  import opened Vmm

  /** Number of pages a four-level table can name: addresses are taken modulo 2^48. */
  const PAGES: nat := 0x10_0000_0000

  /** The four indices of page number p. */
  function PageIx(p: nat): (ix: seq<nat>)
    ensures Ix(ix)
  {
    [(p / 0x800_0000) % 512, (p / 0x4_0000) % 512, (p / 512) % 512, p % 512]
  }

  /** walk_pt's (virt >> 39) & 0x1FF, (virt >> 30) & 0x1FF, (virt >> 21) & 0x1FF and
      (virt >> 12) & 0x1FF. */
  function IxOf(virt: nat): (ix: seq<nat>)
    ensures Ix(ix)
  {
    [(virt / 0x80_0000_0000) % 512, (virt / 0x4000_0000) % 512, (virt / 0x20_0000) % 512, (virt / 0x1000) % 512]
  }

  lemma Shifts(virt: nat)
    ensures virt / 0x20_0000 == (virt / 0x1000) / 512
    ensures virt / 0x4000_0000 == (virt / 0x1000) / 0x4_0000
    ensures virt / 0x80_0000_0000 == (virt / 0x1000) / 0x800_0000
  {
  }

  lemma IxOfPage(virt: nat)
    ensures IxOf(virt) == PageIx(virt / PAGE_SIZE)
  {
    Shifts(virt);
  }

  lemma PageShifts(p: nat)
    ensures p / 0x4_0000 == (p / 512) / 512 && p / 0x800_0000 == (p / 0x4_0000) / 512
    ensures p / PAGES == (p / 0x800_0000) / 512
  {
  }

  /** The page number modulo 2^36 is the four indices read as base-512 digits. */
  lemma PageDigits(p: nat)
    ensures var ix := PageIx(p);
            p % PAGES == ((ix[0] * 512 + ix[1]) * 512 + ix[2]) * 512 + ix[3]
  {
    PageShifts(p);
  }

  /** Two addresses have the same indices exactly when they lie in the same page. */
  lemma SameIxSamePage(v: nat, w: nat)
    ensures IxOf(v) == IxOf(w) <==> (v / PAGE_SIZE) % PAGES == (w / PAGE_SIZE) % PAGES
  {
    IxOfPage(v);
    IxOfPage(w);
    PageDigits(v / PAGE_SIZE);
    PageDigits(w / PAGE_SIZE);
    DigitsUnique(PageIx(v / PAGE_SIZE), PageIx(w / PAGE_SIZE));
  }

  lemma DigitUnique(a: nat, b: nat, c: nat, d: nat)
    requires b < 512 && d < 512 && a * 512 + b == c * 512 + d
    ensures a == c && b == d
  {
  }

  lemma DigitsUnique(x: seq<nat>, y: seq<nat>)
    requires Ix(x) && Ix(y)
    ensures ((x[0] * 512 + x[1]) * 512 + x[2]) * 512 + x[3] == ((y[0] * 512 + y[1]) * 512 + y[2]) * 512 + y[3]
            <==> x == y
  {
    var a, b := x[0] * 512 + x[1], y[0] * 512 + y[1];
    if (a * 512 + x[2]) * 512 + x[3] == (b * 512 + y[2]) * 512 + y[3] {
      DigitUnique(a * 512 + x[2], x[3], b * 512 + y[2], y[3]);
      DigitUnique(a, x[2], b, y[2]);
      DigitUnique(x[0], x[1], y[0], y[1]);
      assert x == y;
    }
  }

  ghost predicate SamePage(v: nat, w: nat) {
    (v / PAGE_SIZE) % PAGES == (w / PAGE_SIZE) % PAGES
  }

  /** vmm_translate_in, with None for its 0. */
  function Translate(ts: Tables, c: nat, virt: nat): Option<nat> {
    match Look(ts, c, IxOf(virt))
    case None => None
    case Some(f) => Some(f * PAGE_SIZE + virt % PAGE_SIZE)
  }

  /** A successful vmm_map_page_in makes every address of the page translate into the frame
      and leaves every other page of every space as it was; for a user page it also leaves
      that page of every other space. A failing call changes no translation. */
  lemma MapPageInAddresses(s: Vm, roles: Roles, c: nat, virt: nat, frame: nat, flags: Flags)
    requires VmOk(s, roles) && IsSpace(roles, c) && Clear(s.tables, c, IxOf(virt))
    ensures var (s', ok) := MapIn(s, c, IxOf(virt), frame, flags);
            && (ok ==> forall w: nat | SamePage(w, virt) ::
                  Translate(s'.tables, c, w) == Some(frame * PAGE_SIZE + w % PAGE_SIZE))
            && (forall d: nat, w: nat | IsSpace(roles, d) && (!ok || !SamePage(w, virt)) ::
                  Translate(s'.tables, d, w) == Translate(s.tables, d, w))
            && (IxOf(virt)[0] < KERNEL_HALF ==> forall d: nat, w: nat | IsSpace(roles, d) && d != c ::
                  Translate(s'.tables, d, w) == Translate(s.tables, d, w))
  {
    hide VmOk, Look, MapIn, Shares, WalkRoles, IxOf, SamePage;
    var ix := IxOf(virt);
    var (s', ok) := MapIn(s, c, ix, frame, flags);
    MapInEffect(s, roles, c, ix, frame, flags);
    forall w: nat | ok && SamePage(w, virt)
      ensures Translate(s'.tables, c, w) == Some(frame * PAGE_SIZE + w % PAGE_SIZE)
    {
      SamePageIx(w, virt);
      assert Look(s'.tables, c, IxOf(w)) == Some(frame);
    }
    forall d: nat, w: nat | IsSpace(roles, d) && (!ok || !SamePage(w, virt))
      ensures Translate(s'.tables, d, w) == Translate(s.tables, d, w)
    {
      SamePageIx(w, virt);
      assert Look(s'.tables, d, IxOf(w)) == Look(s.tables, d, IxOf(w));
    }
    if ix[0] < KERNEL_HALF {
      forall d: nat, w: nat | IsSpace(roles, d) && d != c
        ensures Translate(s'.tables, d, w) == Translate(s.tables, d, w)
      {
        if ok && Shares(s'.tables, c, d, ix) {
          UserHalfPrivate(s', WalkRoles(s, roles, c, ix, true), c, d, ix);
        }
        assert Look(s'.tables, d, IxOf(w)) == Look(s.tables, d, IxOf(w));
      }
    }
  }

  lemma SamePageIx(v: nat, w: nat)
    ensures IxOf(v) == IxOf(w) <==> SamePage(v, w)
  {
    SameIxSamePage(v, w);
  }
}
