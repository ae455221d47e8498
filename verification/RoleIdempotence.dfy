/**
 When does a second run of the role compiler change anything?

 Both answers look only at what the first run covers before it adds pages, `Covered`, and at the
 pages it adds, `Implied`. Compiling twice is not idempotent; rebuilding a stored role is, under
 two conditions on the catalog.
 */
module RoleIdempotence {
  import opened Wrappers
  import opened Text
  import opened RoleCompiler

  // ---------------------------------------------------------------------------------------
  // Capabilities: compiling twice
  // ---------------------------------------------------------------------------------------

  lemma CompiledNotBlank(cat: Catalog, codes: set<Code>)
    requires Valid(cat) && NoBlankCodes(cat)
    ensures NonBlank(Compile(cat, codes)) == Compile(cat, codes)
  {
    var from := NonBlank(codes);
    var covered := Covered(cat, from);
    forall c | c in Compile(cat, codes)
      ensures !AllSpace(c)
    {
      CoveredIsReached(cat, from, c);
      if c !in covered {
        ImpliedPage(cat, covered, c);
        var x :| x in GrantsOf(cat, c);
      }
    }
  }

  /**
   Every capability granted by a covered code, or by a page such a code declares, is covered.
   `through` are the codes looked at.
   */
  ghost predicate CapabilitiesClosed(cat: Catalog, covered: set<Code>, through: set<Code>) {
    && (forall g, x :: g in covered * through && x in GrantsOf(cat, g) && x !in cat.pages ==> x in covered)
    && (forall g, q, x :: g in covered * through && q in GrantsOf(cat, g) && q in cat.pages && x in GrantsOf(cat, q) && x !in cat.pages
          ==> x in covered)
  }

  /** A capability of the result was covered before pages were added. */
  lemma CapabilityIsCovered(cat: Catalog, covered: set<Code>, c: Code)
    requires PagesOnlyImply(cat) && c in covered + Implied(cat, covered) && c !in cat.pages
    ensures c in covered
  {
    if c !in covered {
      ImpliedPage(cat, covered, c);
    }
  }

  ghost predicate AddsNoCapability(cat: Catalog, codes: set<Code>) {
    Compile(cat, Compile(cat, codes)) - cat.pages == Compile(cat, codes) - cat.pages
  }

  /** What an added page grants, or a page it declares grants, is no news. */
  lemma AddedPageReaches(cat: Catalog, covered: set<Code>, g: Code, x: Code)
    requires g in Implied(cat, covered) && x in GrantsOf(cat, g)
    ensures x in covered
  {
    ImpliedPage(cat, covered, g);
  }

  /** Compiling twice adds no capability if and only if the covered codes are closed. */
  lemma CompileAgainAddsNoCapabilityIff(cat: Catalog, codes: set<Code>)
    requires Valid(cat) && PagesOnlyImply(cat) && NoBlankCodes(cat)
    ensures AddsNoCapability(cat, codes) <==>
            CapabilitiesClosed(cat, Covered(cat, NonBlank(codes)), Covered(cat, NonBlank(codes)))
  {
    CompiledNotBlank(cat, codes);
    SecondCapabilitiesIff(cat, Covered(cat, NonBlank(codes)), Compile(cat, codes));
    if CapabilitiesClosed(cat, Covered(cat, NonBlank(codes)), Covered(cat, NonBlank(codes))) {
      forall c | c !in cat.pages && Reached(cat, Compile(cat, codes), c)
        ensures c in Covered(cat, NonBlank(codes))
      {
        ReachedIsCovered(cat, Covered(cat, NonBlank(codes)), c);
      }
    }
    if ReachesOnly(cat, Compile(cat, codes), Covered(cat, NonBlank(codes))) {
      ReachedCapabilitiesCovered(cat, Compile(cat, codes), Covered(cat, NonBlank(codes)));
    }
  }

  /** The capabilities in reach of these codes are covered. */
  ghost predicate ReachesOnly(cat: Catalog, selected: set<Code>, covered: set<Code>) {
    forall c :: c !in cat.pages && Reached(cat, selected, c) ==> c in covered
  }

  /** The capabilities of a second run are those in reach of what it selects. */
  lemma SecondCapabilitiesIff(cat: Catalog, covered: set<Code>, selected: set<Code>)
    requires PagesOnlyImply(cat) && NonBlank(selected) == selected
    requires forall c :: c in covered && c !in cat.pages ==> Reached(cat, selected, c)
    ensures var once := covered + Implied(cat, covered);
      Compile(cat, selected) - cat.pages == once - cat.pages <==> ReachesOnly(cat, selected, covered)
  {
    var once, twice := covered + Implied(cat, covered), Compile(cat, selected);
    forall c | c !in cat.pages
      ensures c in twice <==> Reached(cat, selected, c)
      ensures c in once <==> c in covered
    {
      CompileNeverWidens(cat, selected, c);
      if c in once {
        CapabilityIsCovered(cat, covered, c);
      }
    }
    SameOutside(twice, once, cat.pages);
  }

  lemma SameOutside(a: set<Code>, b: set<Code>, pages: set<Code>)
    ensures a - pages == b - pages <==> forall c :: c !in pages ==> (c in a <==> c in b)
  {
    if a - pages == b - pages {
      forall c | c !in pages
        ensures c in a <==> c in b
      {
        assert c in a - pages <==> c in b - pages;
      }
    }
  }

  lemma ReachedIsCovered(cat: Catalog, covered: set<Code>, c: Code)
    requires PagesOnlyImply(cat) && CapabilitiesClosed(cat, covered, covered)
    requires c !in cat.pages && Reached(cat, covered + Implied(cat, covered), c)
    ensures c in covered
  {
    var once := covered + Implied(cat, covered);
    if c in once {
      CapabilityIsCovered(cat, covered, c);
    } else if g :| g in once && c in GrantsOf(cat, g) {
      if g !in covered {
        AddedPageReaches(cat, covered, g, c);
      }
    } else {
      var g, q :| g in once && q in GrantsOf(cat, g) && q in cat.pages && c in GrantsOf(cat, q);
      if g !in covered {
        AddedPageReaches(cat, covered, g, q);
      }
    }
  }

  lemma ReachedCapabilitiesCovered(cat: Catalog, once: set<Code>, covered: set<Code>)
    requires covered <= once && forall c :: c !in cat.pages && Reached(cat, once, c) ==> c in covered
    ensures CapabilitiesClosed(cat, covered, covered)
  {
    forall g, x | g in covered && x in GrantsOf(cat, g) && x !in cat.pages
      ensures x in covered
    {
      assert Reached(cat, once, x);
    }
    forall g, q, x | g in covered && q in GrantsOf(cat, g) && q in cat.pages && x in GrantsOf(cat, q) && x !in cat.pages
      ensures x in covered
    {
      assert Reached(cat, once, x);
    }
  }

  /** What a set of codes covers is what its codes cover one by one. */
  lemma CoveredOneByOne(cat: Catalog, from: set<Code>, c: Code)
    ensures c in Covered(cat, from) <==> exists g :: g in from && c in Covered(cat, {g})
  {
    CoveredIsReached(cat, from, c);
    if g :| g in from && c in Covered(cat, {g}) {
      CoveredIsReached(cat, {g}, c);
    }
    if Reached(cat, from, c) {
      var g: Code;
      if c in from {
        g := c;
      } else if h :| h in from && c in GrantsOf(cat, h) {
        g := h;
      } else {
        var h, q :| h in from && q in GrantsOf(cat, h) && q in cat.pages && c in GrantsOf(cat, q);
        g := h;
      }
      assert g in {g} && Reached(cat, {g}, c);
      CoveredIsReached(cat, {g}, c);
    }
  }

  /** Closed one by one is closed together. */
  lemma ClosedTogether(cat: Catalog, from: set<Code>, through: set<Code>)
    requires forall g :: g in from ==> CapabilitiesClosed(cat, Covered(cat, {g}), through)
    ensures CapabilitiesClosed(cat, Covered(cat, from), through)
  {
    var covered := Covered(cat, from);
    forall g, x | g in covered * through && x in GrantsOf(cat, g) && x !in cat.pages
      ensures x in covered
    {
      CoveredOneByOne(cat, from, g);
      var f :| f in from && g in Covered(cat, {f});
      assert g in Covered(cat, {f}) * through;
      CoveredOneByOne(cat, from, x);
    }
    forall g, q, x | g in covered * through && q in GrantsOf(cat, g) && q in cat.pages && x in GrantsOf(cat, q) && x !in cat.pages
      ensures x in covered
    {
      CoveredOneByOne(cat, from, g);
      var f :| f in from && g in Covered(cat, {f});
      assert g in Covered(cat, {f}) * through;
      CoveredOneByOne(cat, from, x);
    }
  }

  /** On a catalog: no selection at all gains a capability if and only if no single code does. */
  lemma NoSelectionGainsIff(cat: Catalog)
    requires Valid(cat) && PagesOnlyImply(cat) && NoBlankCodes(cat)
    ensures (forall codes :: AddsNoCapability(cat, codes)) <==>
            forall g :: !AllSpace(g) ==> CapabilitiesClosed(cat, Covered(cat, {g}), Covered(cat, {g}))
  {
    if forall codes :: AddsNoCapability(cat, codes) {
      forall g | !AllSpace(g)
        ensures CapabilitiesClosed(cat, Covered(cat, {g}), Covered(cat, {g}))
      {
        CompileAgainAddsNoCapabilityIff(cat, {g});
        assert NonBlank({g}) == {g};
      }
    }
    if forall g :: !AllSpace(g) ==> CapabilitiesClosed(cat, Covered(cat, {g}), Covered(cat, {g})) {
      forall codes
        ensures AddsNoCapability(cat, codes)
      {
        ClosedEverywhere(cat, NonBlank(codes));
        CompileAgainAddsNoCapabilityIff(cat, codes);
      }
    }
  }

  lemma ClosedEverywhere(cat: Catalog, from: set<Code>)
    requires forall g :: g in from ==> CapabilitiesClosed(cat, Covered(cat, {g}), Covered(cat, {g}))
    ensures CapabilitiesClosed(cat, Covered(cat, from), Covered(cat, from))
  {
    var covered := Covered(cat, from);
    forall g, x | g in covered && x in GrantsOf(cat, g) && x !in cat.pages
      ensures x in covered
    {
      CoveredOneByOne(cat, from, g);
      var f :| f in from && g in Covered(cat, {f});
      CoveredOneByOne(cat, from, x);
    }
    forall g, q, x | g in covered && q in GrantsOf(cat, g) && q in cat.pages && x in GrantsOf(cat, q) && x !in cat.pages
      ensures x in covered
    {
      CoveredOneByOne(cat, from, g);
      var f :| f in from && g in Covered(cat, {f});
      CoveredOneByOne(cat, from, x);
    }
  }

  // ---------------------------------------------------------------------------------------
  // Pages
  // ---------------------------------------------------------------------------------------

  /**
   No page outside the covered codes that comes first in catalog order, for some capability,
   has its grants completed by a page the first run adds.
   */
  ghost predicate FirstPagesHeld(cat: Catalog, covered: set<Code>) {
    forall c :: c in covered && c !in cat.pages ==> FirstPageHeld(cat, covered, PageFor(cat, c, covered + Implied(cat, covered)))
  }

  predicate FirstPageHeld(cat: Catalog, covered: set<Code>, first: Option<Code>) {
    first.Some? && first.value !in covered ==> GrantsOf(cat, first.value) <= covered
  }

  /** The first page under more codes is the first one under fewer, if it fits these too. */
  lemma {:induction false} FirstUnderFewer(cat: Catalog, candidates: seq<Code>, few: set<Code>, many: set<Code>)
    requires few <= many
    ensures var first := FirstCovered(cat, candidates, many);
      first.Some? && GrantsOf(cat, first.value) <= few ==> FirstCovered(cat, candidates, few) == first
  {
    if candidates != [] && !(GrantsOf(cat, candidates[0]) <= many) {
      FirstUnderFewer(cat, candidates[1..], few, many);
    }
  }

  /** A selection that covers at least the first result, and what it grants and declares stays inside. */
  ghost predicate StaysInside(cat: Catalog, selected: set<Code>, once: set<Code>) {
    && (forall g :: g in selected ==> GrantsOf(cat, g) <= once)
    && (forall g, q :: g in selected && q in GrantsOf(cat, g) && q in cat.pages ==> GrantsOf(cat, q) <= once)
  }

  lemma StaysInsideIff(cat: Catalog, selected: set<Code>, once: set<Code>)
    requires selected <= once
    ensures Covered(cat, selected) <= once <==> StaysInside(cat, selected, once)
  {
    forall c
      ensures c in Covered(cat, selected) <==> Reached(cat, selected, c)
    {
      CoveredIsReached(cat, selected, c);
    }
    if Covered(cat, selected) <= once {
      forall g, x | g in selected && x in GrantsOf(cat, g)
        ensures x in once
      {
        assert Reached(cat, selected, x);
      }
      forall g, q, x | g in selected && q in GrantsOf(cat, g) && q in cat.pages && x in GrantsOf(cat, q)
        ensures x in once
      {
        assert Reached(cat, selected, x);
      }
    }
  }

  /** Once the covered codes are the same, only a page completed by an added one can be new. */
  lemma ImpliedAgainIff(cat: Catalog, covered: set<Code>)
    requires PagesOnlyImply(cat)
    ensures var once := covered + Implied(cat, covered);
      Implied(cat, once) <= once <==> FirstPagesHeld(cat, covered)
  {
    var once := covered + Implied(cat, covered);
    if FirstPagesHeld(cat, covered) {
      forall p | p in Implied(cat, once)
        ensures p in once
      {
        var c :| c in once - cat.pages && PageFor(cat, c, once) == Some(p);
        CapabilityIsCovered(cat, covered, c);
        if p !in covered {
          assert FirstPageHeld(cat, covered, PageFor(cat, c, once));
          FirstUnderFewer(cat, PagesGranting(cat, cat.order, c), covered, once);
          assert c in covered - cat.pages;
        }
      }
    }
    if Implied(cat, once) <= once {
      forall c | c in covered && c !in cat.pages
        ensures FirstPageHeld(cat, covered, PageFor(cat, c, once))
      {
        if PageFor(cat, c, once).Some? && PageFor(cat, c, once).value !in covered {
          assert c in once - cat.pages;
          assert PageFor(cat, c, once).value in PagesFor(cat, once - cat.pages, once);
          ImpliedPage(cat, covered, PageFor(cat, c, once).value);
        }
      }
    }
  }

  /** The second run of anything that covers at least the first result. */
  lemma SecondRunIff(cat: Catalog, covered: set<Code>, selected: set<Code>)
    requires PagesOnlyImply(cat) && NonBlank(selected) == selected
    requires var once := covered + Implied(cat, covered); selected <= once && once <= Covered(cat, selected)
    ensures var once := covered + Implied(cat, covered);
      Compile(cat, selected) == once <==> StaysInside(cat, selected, once) && FirstPagesHeld(cat, covered)
  {
    var once := covered + Implied(cat, covered);
    StaysInsideIff(cat, selected, once);
    ImpliedAgainIff(cat, covered);
    if Covered(cat, selected) <= once {
      assert Covered(cat, NonBlank(selected)) == once;
    }
  }

  /**
   Main result for the compiler: compiling twice changes nothing if and only if the covered codes
   grant nothing beyond themselves and the added pages, and the first pages are held.
   */
  lemma CompileTwiceIff(cat: Catalog, codes: set<Code>)
    requires Valid(cat) && PagesOnlyImply(cat) && NoBlankCodes(cat)
    ensures
      var covered := Covered(cat, NonBlank(codes));
      Compile(cat, Compile(cat, codes)) == Compile(cat, codes) <==>
      (forall g :: g in covered ==> GrantsOf(cat, g) <= covered + Implied(cat, covered)) && FirstPagesHeld(cat, covered)
  {
    var covered, once := Covered(cat, NonBlank(codes)), Compile(cat, codes);
    CompiledNotBlank(cat, codes);
    SecondRunIff(cat, covered, once);
    if forall g :: g in covered ==> GrantsOf(cat, g) <= once {
      forall g | g in once
        ensures GrantsOf(cat, g) <= once
      {
        if g !in covered {
          ImpliedPage(cat, covered, g);
        }
      }
    }
  }

  // ---------------------------------------------------------------------------------------
  // Rebuilding twice
  // ---------------------------------------------------------------------------------------

  function FirstCover(cat: Catalog, stored: set<Code>): set<Code> {
    Covered(cat, NonBlank(Selection(cat, stored)))
  }

  /** What the second run selects covers the first result. */
  lemma SelectionCoversAgain(cat: Catalog, stored: set<Code>)
    requires Valid(cat) && PagesOnlyImply(cat) && NoBlankCodes(cat)
    ensures var once := Rebuilt(cat, stored); var selected := Selection(cat, once);
      NonBlank(selected) == selected && once <= Covered(cat, selected)
  {
    var once := Rebuilt(cat, stored);
    CompiledNotBlank(cat, Selection(cat, stored));
    assert NonBlank(Selection(cat, once)) == Selection(cat, once);
    forall c | c in once
      ensures c in Covered(cat, Selection(cat, once))
    {
      if c in FirstCover(cat, stored) {
        CoveredStays(cat, stored, c);
      } else {
        ImpliedPage(cat, FirstCover(cat, stored), c);
        SelectedAgain(cat, stored, c);
      }
    }
  }

  /** A code the second run selects is a page, or was selected by the first. */
  lemma SelectedTwice(cat: Catalog, stored: set<Code>, g: Code)
    requires Valid(cat) && PagesOnlyImply(cat)
    requires g in Selection(cat, Rebuilt(cat, stored)) && g !in cat.pages
    ensures g in NonBlank(Selection(cat, stored))
  {
    CapabilityIsCovered(cat, FirstCover(cat, stored), g);
    DeliberateWasSelected(cat, stored, g);
  }

  /** A deliberate grant found in a rebuilt role was selected in the first place. */
  lemma DeliberateWasSelected(cat: Catalog, stored: set<Code>, g: Code)
    requires g in FirstCover(cat, stored) && g !in cat.pages && g !in Derived(cat)
    ensures g in NonBlank(Selection(cat, stored))
  {
    CoveredIsReached(cat, NonBlank(Selection(cat, stored)), g);
    assert forall h :: g in GrantsOf(cat, h) ==> h == g;
  }

  /** The covered pages grant nothing new, and the first pages are held. */
  ghost predicate SettledRole(cat: Catalog, stored: set<Code>) {
    var covered := FirstCover(cat, stored);
    && (forall p :: p in covered && p in cat.pages ==> GrantsOf(cat, p) <= covered + Implied(cat, covered))
    && FirstPagesHeld(cat, covered)
  }

  /** A selected code grants only what the first run covers, and so do the pages it declares. */
  lemma SelectedIsInside(cat: Catalog, from: set<Code>, g: Code)
    requires g in from
    ensures GrantsOf(cat, g) <= Covered(cat, from)
    ensures forall q :: q in GrantsOf(cat, g) && q in cat.pages ==> GrantsOf(cat, q) <= Covered(cat, from)
  {
    forall x | x in GrantsOf(cat, g)
      ensures x in Covered(cat, from)
      ensures x in cat.pages ==> GrantsOf(cat, x) <= Covered(cat, from)
    {
      CoveredIsReached(cat, from, x);
      forall y | x in cat.pages && y in GrantsOf(cat, x)
        ensures y in Covered(cat, from)
      {
        CoveredIsReached(cat, from, y);
      }
    }
  }

  /** Main result for the rebuild: a second one changes nothing if and only if the role is settled. */
  lemma RebuildTwiceIff(cat: Catalog, stored: set<Code>)
    requires Valid(cat) && PagesOnlyImply(cat) && NoBlankCodes(cat)
    ensures Rebuilt(cat, Rebuilt(cat, stored)) == Rebuilt(cat, stored) <==> SettledRole(cat, stored)
  {
    var covered, once := FirstCover(cat, stored), Rebuilt(cat, stored);
    SelectionCoversAgain(cat, stored);
    SecondRunIff(cat, covered, Selection(cat, once));
    if forall p :: p in covered && p in cat.pages ==> GrantsOf(cat, p) <= once {
      PagesStayInside(cat, stored);
    }
    if StaysInside(cat, Selection(cat, once), once) {
      assert forall p :: p in covered && p in cat.pages ==> p in Selection(cat, once);
    }
  }

  lemma PagesStayInside(cat: Catalog, stored: set<Code>)
    requires Valid(cat) && PagesOnlyImply(cat)
    requires forall p :: p in FirstCover(cat, stored) && p in cat.pages ==> GrantsOf(cat, p) <= Rebuilt(cat, stored)
    ensures StaysInside(cat, Selection(cat, Rebuilt(cat, stored)), Rebuilt(cat, stored))
  {
    var covered, once := FirstCover(cat, stored), Rebuilt(cat, stored);
    forall p | p in once && p in cat.pages
      ensures GrantsOf(cat, p) <= once
    {
      if p !in covered {
        ImpliedPage(cat, covered, p);
      }
    }
    forall g | g in Selection(cat, once)
      ensures GrantsOf(cat, g) <= once
      ensures forall q :: q in GrantsOf(cat, g) && q in cat.pages ==> GrantsOf(cat, q) <= once
    {
      if g !in cat.pages {
        SelectedTwice(cat, stored, g);
        SelectedIsInside(cat, NonBlank(Selection(cat, stored)), g);
      }
    }
  }

  ghost predicate RebuildAddsNoCapability(cat: Catalog, stored: set<Code>) {
    Rebuilt(cat, Rebuilt(cat, stored)) - cat.pages == Rebuilt(cat, stored) - cat.pages
  }

  /** Rebuilding twice adds no capability if and only if the covered pages are closed. */
  lemma RebuildAgainAddsNoCapabilityIff(cat: Catalog, stored: set<Code>)
    requires Valid(cat) && PagesOnlyImply(cat) && NoBlankCodes(cat)
    ensures RebuildAddsNoCapability(cat, stored) <==> CapabilitiesClosed(cat, FirstCover(cat, stored), cat.pages)
  {
    var covered, selected := FirstCover(cat, stored), Selection(cat, Rebuilt(cat, stored));
    SelectionCoversAgain(cat, stored);
    forall c
      ensures c in Covered(cat, selected) <==> Reached(cat, selected, c)
    {
      CoveredIsReached(cat, selected, c);
    }
    SecondCapabilitiesIff(cat, covered, selected);
    if CapabilitiesClosed(cat, covered, cat.pages) {
      forall c | c !in cat.pages && Reached(cat, selected, c)
        ensures c in covered
      {
        ReselectedIsCovered(cat, stored, c);
      }
    }
    if ReachesOnly(cat, selected, covered) {
      PagesReachCovered(cat, selected, covered);
    }
  }

  lemma ReselectedIsCovered(cat: Catalog, stored: set<Code>, c: Code)
    requires Valid(cat) && PagesOnlyImply(cat) && CapabilitiesClosed(cat, FirstCover(cat, stored), cat.pages)
    requires c !in cat.pages && Reached(cat, Selection(cat, Rebuilt(cat, stored)), c)
    ensures c in FirstCover(cat, stored)
  {
    var covered, from := FirstCover(cat, stored), NonBlank(Selection(cat, stored));
    var selected := Selection(cat, Rebuilt(cat, stored));
    if c in selected {
      CapabilityIsCovered(cat, covered, c);
    } else {
      var g: Code;
      if h :| h in selected && c in GrantsOf(cat, h) {
        g := h;
      } else {
        var h, q :| h in selected && q in GrantsOf(cat, h) && q in cat.pages && c in GrantsOf(cat, q);
        g := h;
      }
      if g !in cat.pages {
        SelectedTwice(cat, stored, g);
        SelectedIsInside(cat, from, g);
      } else if g !in covered {
        ImpliedPage(cat, covered, g);
      } else {
        assert g in covered * cat.pages;
      }
    }
  }

  lemma PagesReachCovered(cat: Catalog, selected: set<Code>, covered: set<Code>)
    requires covered * cat.pages <= selected && forall c :: c !in cat.pages && Reached(cat, selected, c) ==> c in covered
    ensures CapabilitiesClosed(cat, covered, cat.pages)
  {
    forall g, x | g in covered * cat.pages && x in GrantsOf(cat, g) && x !in cat.pages
      ensures x in covered
    {
      assert Reached(cat, selected, x);
    }
    forall g, q, x | g in covered * cat.pages && q in GrantsOf(cat, g) && q in cat.pages && x in GrantsOf(cat, q) && x !in cat.pages
      ensures x in covered
    {
      assert Reached(cat, selected, x);
    }
  }

  /** What a rebuild can select: pages, and what no page grants. */
  predicate Selectable(cat: Catalog, g: Code) {
    !AllSpace(g) && (g in cat.pages || g !in Derived(cat))
  }

  /** On a catalog: no stored role at all gains a capability if and only if no single code does. */
  lemma NoRoleGainsIff(cat: Catalog)
    requires Valid(cat) && PagesOnlyImply(cat) && NoBlankCodes(cat)
    ensures (forall stored :: RebuildAddsNoCapability(cat, stored)) <==>
            forall g :: Selectable(cat, g) ==> CapabilitiesClosed(cat, Covered(cat, {g}), cat.pages)
  {
    if forall stored :: RebuildAddsNoCapability(cat, stored) {
      forall g | Selectable(cat, g)
        ensures CapabilitiesClosed(cat, Covered(cat, {g}), cat.pages)
      {
        assert NonBlank(Selection(cat, {g})) == {g};
        assert RebuildAddsNoCapability(cat, {g});
        RebuildAgainAddsNoCapabilityIff(cat, {g});
      }
    }
    if forall g :: Selectable(cat, g) ==> CapabilitiesClosed(cat, Covered(cat, {g}), cat.pages) {
      forall stored
        ensures RebuildAddsNoCapability(cat, stored)
      {
        assert forall g :: g in NonBlank(Selection(cat, stored)) ==> Selectable(cat, g);
        ClosedTogether(cat, NonBlank(Selection(cat, stored)), cat.pages);
        RebuildAgainAddsNoCapabilityIff(cat, stored);
      }
    }
  }

  // ---------------------------------------------------------------------------------------
  // Catalogs on which every rebuild is idempotent
  // ---------------------------------------------------------------------------------------

  /** What three grants through declared pages reach, two grants reach as well. */
  ghost predicate ClosesInTwoHops(cat: Catalog) {
    forall g, q, r, x :: q in GrantsOf(cat, g) && q in cat.pages && r in GrantsOf(cat, q) && r in cat.pages && x in GrantsOf(cat, r)
      ==> x in GrantsOf(cat, g) || exists m :: m in GrantsOf(cat, g) && m in cat.pages && x in GrantsOf(cat, m)
  }

  /** An earlier page grants this capability and nothing else. */
  ghost predicate Preceded(cat: Catalog, c: Code, page: Code) {
    exists i, j :: 0 <= i < j < |cat.order| && cat.order[j] == page && c in GrantsOf(cat, cat.order[i]) && GrantsOf(cat, cat.order[i]) <= {c}
  }

  /** Whoever grants the capability is, or grants, the page. */
  ghost predicate AlwaysTogether(cat: Catalog, c: Code, page: Code) {
    forall g :: c in GrantsOf(cat, g) ==> g == page || page in GrantsOf(cat, g)
  }

  /** A page that grants a capability and pages never waits for one of these to be added. */
  ghost predicate FirstPagesSettled(cat: Catalog) {
    forall r, c, p :: c in GrantsOf(cat, r) && c !in cat.pages && p in GrantsOf(cat, r) && p in cat.pages ==>
      Preceded(cat, c, r) || AlwaysTogether(cat, c, p)
  }

  /** In catalog order, the first covered page is not behind another covered one. */
  lemma {:induction false} FirstIsEarliest(cat: Catalog, order: seq<Code>, c: Code, covered: set<Code>, i: nat, j: nat)
    requires i < j < |order| && forall m, n :: 0 <= m < n < |order| ==> order[m] != order[n]
    requires c in GrantsOf(cat, order[i]) && GrantsOf(cat, order[i]) <= covered
    ensures FirstCovered(cat, PagesGranting(cat, order, c), covered) != Some(order[j])
  {
    var n := |order| - 1;
    var init := order[..n];
    var last := if c in GrantsOf(cat, order[n]) then [order[n]] else [];
    FirstOfSum(cat, PagesGranting(cat, init, c), last, covered);
    FirstCoveredFits(cat, PagesGranting(cat, init, c), covered);
    ListedInOrder(cat, init, c);
    assert init[i] == order[i] && order[i] in init;
    if j < n {
      assert init[j] == order[j];
      FirstIsEarliest(cat, init, c, covered, i, j);
    } else {
      assert order[n] !in init;
    }
  }

  /** A capability the first run covers was selected on its own, or comes with whatever grants it. */
  lemma ComesWithGranter(cat: Catalog, stored: set<Code>, c: Code, r: Code, p: Code)
    requires c in FirstCover(cat, stored) && c !in cat.pages && c in GrantsOf(cat, r)
    requires p in GrantsOf(cat, r) && p in cat.pages && AlwaysTogether(cat, c, p)
    ensures p in FirstCover(cat, stored)
  {
    var from := NonBlank(Selection(cat, stored));
    CoveredIsReached(cat, from, c);
    CoveredIsReached(cat, from, p);
    if c in from {
      assert c !in Derived(cat);
      assert r == c;
    } else if g :| g in from && c in GrantsOf(cat, g) {
      assert g == p || p in GrantsOf(cat, g);
    } else {
      var g, q :| g in from && q in GrantsOf(cat, g) && q in cat.pages && c in GrantsOf(cat, q);
      assert q == p || p in GrantsOf(cat, q);
    }
  }

  lemma SettledHoldsFirstPages(cat: Catalog, stored: set<Code>)
    requires Valid(cat) && PagesOnlyImply(cat) && FirstPagesSettled(cat)
    ensures FirstPagesHeld(cat, FirstCover(cat, stored))
  {
    var covered := FirstCover(cat, stored);
    var once := covered + Implied(cat, covered);
    forall c | c in covered && c !in cat.pages
      ensures FirstPageHeld(cat, covered, PageFor(cat, c, once))
    {
      var first := PageFor(cat, c, once);
      if first.Some? {
        FirstCoveredFits(cat, PagesGranting(cat, cat.order, c), once);
        ListedInOrder(cat, cat.order, c);
        forall p | p in GrantsOf(cat, first.value)
          ensures p in covered
        {
          NotCompleted(cat, stored, c, first.value, p);
        }
      }
    }
  }

  lemma NotCompleted(cat: Catalog, stored: set<Code>, c: Code, r: Code, p: Code)
    requires Valid(cat) && PagesOnlyImply(cat) && FirstPagesSettled(cat)
    requires var covered := FirstCover(cat, stored); var once := covered + Implied(cat, covered);
      c in covered && c !in cat.pages && PageFor(cat, c, once) == Some(r) && c in GrantsOf(cat, r) && p in GrantsOf(cat, r) && p in once
    ensures p in FirstCover(cat, stored)
  {
    var covered := FirstCover(cat, stored);
    var once := covered + Implied(cat, covered);
    if p !in covered {
      ImpliedPage(cat, covered, p);
      if AlwaysTogether(cat, c, p) {
        ComesWithGranter(cat, stored, c, r, p);
      } else {
        assert Preceded(cat, c, r);
        var i, j :| 0 <= i < j < |cat.order| && cat.order[j] == r && c in GrantsOf(cat, cat.order[i]) && GrantsOf(cat, cat.order[i]) <= {c};
        FirstIsEarliest(cat, cat.order, c, once, i, j);
      }
    }
  }

  /** A page the first run covers grants only what it covers, if grants close in two hops. */
  lemma CoveredPageIsClosed(cat: Catalog, stored: set<Code>, g: Code, x: Code)
    requires ClosesInTwoHops(cat)
    requires g in FirstCover(cat, stored) && g in cat.pages && x in GrantsOf(cat, g)
    ensures x in FirstCover(cat, stored)
  {
    var from := NonBlank(Selection(cat, stored));
    CoveredIsReached(cat, from, x);
    CoveredIsReached(cat, from, g);
    if g !in from && !exists h :: h in from && g in GrantsOf(cat, h) {
      var h, q :| h in from && q in GrantsOf(cat, h) && q in cat.pages && g in GrantsOf(cat, q);
      assert x in GrantsOf(cat, h) || exists m :: m in GrantsOf(cat, h) && m in cat.pages && x in GrantsOf(cat, m);
    }
  }

  /** If grants close in two hops, a second rebuild changes nothing exactly when the first pages are held. */
  lemma SecondRunChangesNothingIff(cat: Catalog, stored: set<Code>)
    requires Valid(cat) && PagesOnlyImply(cat) && NoBlankCodes(cat) && ClosesInTwoHops(cat)
    ensures Rebuilt(cat, Rebuilt(cat, stored)) == Rebuilt(cat, stored) <==> FirstPagesHeld(cat, FirstCover(cat, stored))
  {
    RebuildTwiceIff(cat, stored);
    forall p, x | p in FirstCover(cat, stored) && p in cat.pages && x in GrantsOf(cat, p)
      ensures x in FirstCover(cat, stored)
    {
      CoveredPageIsClosed(cat, stored, p, x);
    }
  }

  /** If grants close in two hops, a second rebuild adds no capability. */
  lemma SecondRunAddsNoCapability(cat: Catalog, stored: set<Code>)
    requires Valid(cat) && PagesOnlyImply(cat) && NoBlankCodes(cat) && ClosesInTwoHops(cat)
    ensures RebuildAddsNoCapability(cat, stored)
  {
    RebuildAgainAddsNoCapabilityIff(cat, stored);
    forall p, x | p in FirstCover(cat, stored) && p in cat.pages && x in GrantsOf(cat, p)
      ensures x in FirstCover(cat, stored)
    {
      CoveredPageIsClosed(cat, stored, p, x);
    }
  }

  /** On a catalog with both properties every rebuild is idempotent. */
  lemma RebuildIsIdempotent(cat: Catalog, stored: set<Code>)
    requires Valid(cat) && PagesOnlyImply(cat) && NoBlankCodes(cat) && ClosesInTwoHops(cat) && FirstPagesSettled(cat)
    ensures Rebuilt(cat, Rebuilt(cat, stored)) == Rebuilt(cat, stored)
  {
    SettledHoldsFirstPages(cat, stored);
    SecondRunChangesNothingIff(cat, stored);
  }

  // ---------------------------------------------------------------------------------------
  // The rebuild command
  // ---------------------------------------------------------------------------------------

  type Roles = map<string, set<Code>>

  /** The roles a run reports as changed. */
  function Outdated(cat: Catalog, roles: Roles): set<string> {
    set r | r in roles && Desired(cat, r, roles[r]) != roles[r]
  }

  function RebuiltRoles(cat: Catalog, roles: Roles): Roles {
    map r | r in roles :: Desired(cat, r, roles[r])
  }

  /**
   After one applied run, a second one reports no changes if and only if every role but the
   super administrator is settled.
   */
  lemma SecondRunReportsNothingIff(cat: Catalog, roles: Roles)
    requires Valid(cat) && PagesOnlyImply(cat) && NoBlankCodes(cat)
    ensures Outdated(cat, RebuiltRoles(cat, roles)) == {} <==>
            forall r :: r in roles && r != SUPER_ADMIN_ROLE ==> SettledRole(cat, roles[r])
  {
    var once := RebuiltRoles(cat, roles);
    forall r | r in roles
      ensures r in Outdated(cat, once) <==> r != SUPER_ADMIN_ROLE && !SettledRole(cat, roles[r])
    {
      if r != SUPER_ADMIN_ROLE {
        RebuildTwiceIff(cat, roles[r]);
        assert once[r] == Rebuilt(cat, roles[r]);
      }
    }
    if Outdated(cat, once) != {} {
      var r :| r in Outdated(cat, once);
      assert r in roles;
    }
  }

  /** On a catalog with both properties it always does: the command is idempotent. */
  lemma SecondRunReportsNothing(cat: Catalog, roles: Roles)
    requires Valid(cat) && PagesOnlyImply(cat) && NoBlankCodes(cat) && ClosesInTwoHops(cat) && FirstPagesSettled(cat)
    ensures Outdated(cat, RebuiltRoles(cat, roles)) == {}
  {
    SecondRunReportsNothingIff(cat, roles);
    forall r | r in roles
      ensures SettledRole(cat, roles[r])
    {
      RebuildIsIdempotent(cat, roles[r]);
      RebuildTwiceIff(cat, roles[r]);
    }
  }

  class RoleStore {
    var grants: Roles

    /** `desired_codes` */
    method DesiredCodes(cat: Catalog, reverse: map<Code, seq<Code>>, roleCode: string, stored: set<Code>) returns (desired: set<Code>)
      requires forall c :: Listed(reverse, c) == PagesGranting(cat, cat.order, c)
      ensures desired == Desired(cat, roleCode, stored)
    {
      if roleCode == SUPER_ADMIN_ROLE {
        return {WILDCARD};
      }
      var pages := set c | c in stored && c in cat.pages;
      var deliberate := set c | c in stored && c !in cat.pages && c !in Derived(cat);
      assert pages + deliberate == Selection(cat, stored);
      desired := CompileRolePermissions(cat, reverse, pages + deliberate);
    }

    /** The command: exit code and number of changed roles; a dry run writes nothing. */
    method Rebuild(cat: Catalog, reverse: map<Code, seq<Code>>, production: bool, apply: bool) returns (exit: int, changed: nat)
      requires forall c :: Listed(reverse, c) == PagesGranting(cat, cat.order, c)
      modifies this
      ensures production ==> exit == 2 && changed == 0
      ensures !production ==> exit == 0 && changed == |Outdated(cat, old(grants))|
      ensures grants == if apply && !production then RebuiltRoles(cat, old(grants)) else old(grants)
    {
      if production {
        return 2, 0;
      }
      DifferingIsOutdated(cat, grants);
      exit := 0;
      changed := RebuildEach(cat, reverse, apply, RebuiltRoles(cat, grants));
    }

    /** Its loop over the roles. */
    method RebuildEach(cat: Catalog, reverse: map<Code, seq<Code>>, apply: bool, ghost rebuilt: Roles) returns (changed: nat)
      requires forall c :: Listed(reverse, c) == PagesGranting(cat, cat.order, c)
      requires rebuilt == RebuiltRoles(cat, grants)
      modifies this
      ensures changed == |Differing(old(grants), rebuilt)|
      ensures grants == if apply then rebuilt else old(grants)
    {
      changed := 0;
      var roles := grants;
      var todo := roles.Keys;
      while todo != {}
        invariant Progress(grants, roles, rebuilt, todo, apply, changed)
      {
        var role :| role in todo;
        OneMoreRole(grants, roles, rebuilt, todo, apply, changed, role);
        var differs := RebuildRole(cat, reverse, role, roles, apply, rebuilt);
        changed := if differs then changed + 1 else changed;
        todo := todo - {role};
      }
      AllRoles(grants, roles, rebuilt, apply, changed);
    }

    /** One role: compared, and written when it differs. */
    method RebuildRole(cat: Catalog, reverse: map<Code, seq<Code>>, role: string, roles: Roles, apply: bool, ghost rebuilt: Roles)
      returns (differs: bool)
      requires forall c :: Listed(reverse, c) == PagesGranting(cat, cat.order, c)
      requires role in roles && rebuilt == RebuiltRoles(cat, roles) && role in grants && grants[role] == roles[role]
      modifies this
      ensures differs <==> role in Differing(roles, rebuilt)
      ensures grants == if apply then old(grants)[role := rebuilt[role]] else old(grants)
    {
      var desired := DesiredCodes(cat, reverse, role, roles[role]);
      assert desired == rebuilt[role];
      differs := desired != roles[role];
      if differs && apply {
        grants := grants[role := desired];
      }
    }
  }

  lemma DifferingIsOutdated(cat: Catalog, roles: Roles)
    ensures Differing(roles, RebuiltRoles(cat, roles)) == Outdated(cat, roles)
  {
  }

  ghost function Differing(roles: Roles, rebuilt: Roles): set<string> {
    set r | r in roles && r in rebuilt && rebuilt[r] != roles[r]
  }

  /** Roles still to do have their old codes, the others are counted and have their new ones. */
  ghost predicate Progress(grants: Roles, roles: Roles, rebuilt: Roles, todo: set<string>, apply: bool, changed: nat) {
    && todo <= roles.Keys && grants.Keys == roles.Keys == rebuilt.Keys
    && changed == |Differing(roles, rebuilt) - todo|
    && forall r :: r in roles ==> grants[r] == if apply && r !in todo then rebuilt[r] else roles[r]
  }

  lemma OneMoreRole(grants: Roles, roles: Roles, rebuilt: Roles, todo: set<string>, apply: bool, changed: nat, role: string)
    requires role in todo && Progress(grants, roles, rebuilt, todo, apply, changed)
    ensures role in roles && role in grants && role in rebuilt && grants[role] == roles[role]
    ensures Progress(if apply then grants[role := rebuilt[role]] else grants, roles, rebuilt, todo - {role}, apply,
                     if role in Differing(roles, rebuilt) then changed + 1 else changed)
  {
    var was := Differing(roles, rebuilt) - todo;
    if role in Differing(roles, rebuilt) {
      assert Differing(roles, rebuilt) - (todo - {role}) == was + {role};
    } else {
      assert Differing(roles, rebuilt) - (todo - {role}) == was;
    }
  }

  lemma AllRoles(grants: Roles, roles: Roles, rebuilt: Roles, apply: bool, changed: nat)
    requires Progress(grants, roles, rebuilt, {}, apply, changed)
    ensures changed == |Differing(roles, rebuilt)|
    ensures grants == if apply then rebuilt else roles
  {
    assert Differing(roles, rebuilt) - {} == Differing(roles, rebuilt);
  }

  // ---------------------------------------------------------------------------------------
  // Compiling twice on the shipped catalog
  // ---------------------------------------------------------------------------------------

  /** Three entries of the shipped catalog. */
  function ExportExcerpt(): Catalog {
    Catalog(["dashboard.export", "report.export", "reports.quotations.export"],
            map["dashboard.export" := ["report.export"],
                "report.export" := ["reports.quotations.export"],
                "reports.quotations.export" := ["report.export"]],
            {"dashboard.export", "reports.quotations.export"})
  }

  lemma ExportPage(covered: set<Code>)
    requires "report.export" in covered
    ensures PageFor(ExportExcerpt(), "report.export", covered) == Some("dashboard.export")
  {
    var cat := ExportExcerpt();
    var a, b, c := "dashboard.export", "report.export", "reports.quotations.export";
    assert a != b && a != c && b != c by {
      assert |a| != |b| && |a| != |c| && |b| != |c|;
    }
    assert GrantsOf(cat, a) == {b} && GrantsOf(cat, b) == {c} && GrantsOf(cat, c) == {b};
    assert [a, b, c][..2] == [a, b] && [a, b][..1] == [a] && [a][..0] == [];
    assert PagesGranting(cat, [a], b) == [a];
    assert PagesGranting(cat, [a, b], b) == [a];
    assert PagesGranting(cat, [a, b, c], b) == [a, c];
  }

  /**
   Compiling is not idempotent on its own: the dashboard's export right compiles to
   `report.export`, and compiling that again opens the report exports.
   */
  lemma CompileIsNotIdempotent()
    ensures
      var once := Compile(ExportExcerpt(), {"dashboard.export"});
      "reports.quotations.export" !in once && "reports.quotations.export" in Compile(ExportExcerpt(), once)
  {
    var cat := ExportExcerpt();
    var a, b, c := "dashboard.export", "report.export", "reports.quotations.export";
    assert a != b && a != c && b != c by {
      assert |a| != |b| && |a| != |c| && |b| != |c|;
    }
    assert !IsSpace(a[0]) && !IsSpace(b[0]);
    assert GrantsOf(cat, a) == {b} && GrantsOf(cat, b) == {c};
    assert NonBlank({a}) == {a};
    var covered := Covered(cat, {a});
    assert covered == {a, b} by {
      assert Declared(cat, {a}) == {b};
      assert Declared(cat, {b} * cat.pages) == {};
    }
    ExportPage(covered);
    assert covered - cat.pages == {b};
    assert Implied(cat, covered) == {a};
    var once := Compile(cat, {a});
    assert once == {a, b};
    assert b in NonBlank(once);
    assert c in Declared(cat, NonBlank(once));
  }

  /** Saving roles of these entries loses none of the capabilities submitted codes open. */
  lemma ExcerptOpensNothing()
    ensures GrantedOpensNothing(ExportExcerpt())
  {
    var cat := ExportExcerpt();
    var a, b, c := "dashboard.export", "report.export", "reports.quotations.export";
    assert a != b && a != c && b != c by {
      assert |a| != |b| && |a| != |c| && |b| != |c|;
    }
    assert GrantsOf(cat, a) == {b} && GrantsOf(cat, b) == {c} && GrantsOf(cat, c) == {b};
  }

  lemma ExportCodes()
    ensures var a, b := "dashboard.export", "report.export";
      && a != b && Strip(a) == a && Strip(b) == b && !AllSpace(a) && !AllSpace(b)
      && a in ExportExcerpt().pages && b !in ExportExcerpt().pages
      && GrantsOf(ExportExcerpt(), a) == {b} && "reports.quotations.export" in GrantsOf(ExportExcerpt(), b)
  {
    var a, b := "dashboard.export", "report.export";
    assert |a| != |b| && |b| != |"reports.quotations.export"|;
    assert !IsSpace(a[0]) && !IsSpace(a[|a| - 1]) && !IsSpace(b[0]) && !IsSpace(b[|b| - 1]);
  }

  lemma KeptOfGranted(cat: Catalog, a: Code, b: Code)
    requires a != b && Strip(a) == a && Strip(b) == b && !AllSpace(a) && !AllSpace(b)
    requires a in cat.pages && b !in cat.pages && GrantsOf(cat, a) == {b}
    ensures Kept(cat, {b}) == {b} && Kept(cat, {b, a}) == {a}
  {
    assert !PageGrants(cat, {b}, b);
    assert PageGrants(cat, {b, a}, b);
  }

  /** Ticking a page can take a page away: what the submitted capability opened beyond it is dropped with it. */
  lemma TickingAPageLosesAPage()
    ensures "reports.quotations.export" in Resolve(ExportExcerpt(), {"report.export"})
    ensures "reports.quotations.export" !in Resolve(ExportExcerpt(), {"report.export", "dashboard.export"})
  {
    var cat, a, b, c := ExportExcerpt(), "dashboard.export", "report.export", "reports.quotations.export";
    ExportCodes();
    KeptOfGranted(cat, a, b);
    ResolveCompilesKept(cat, {b});
    ResolveCompilesKept(cat, {b, a});
    assert c in Declared(cat, NonBlank({b}));
    CompileIsNotIdempotent();
  }
}
