/**
 The role compiler: `compile_role_permissions` closes a set of permission codes over the
 page/capability graph, `resolve_role_codes` prepares what an administrator submitted, and
 `desired_codes` recomputes a stored role.

 The several hundred entries of the shipped catalog are a parameter. `Valid`, `PagesOnlyImply`
 and `NoBlankCodes` are the facts about it the results below use.
 */
module RoleCompiler {
  import opened Wrappers
  import opened Text

  type Code = string

  /**
   `PAGE_PERMISSION_GRANTS` is the dictionary `grants`, with its keys in insertion order;
   `pages` is `PAGE_PERMISSION_CODES`.
   */
  datatype Catalog = Catalog(order: seq<Code>, grants: map<Code, seq<Code>>, pages: set<Code>)

  ghost predicate Valid(cat: Catalog) {
    && (forall p :: p in cat.order <==> p in cat.grants)
    && (forall i, j :: 0 <= i < j < |cat.order| ==> cat.order[i] != cat.order[j])
  }

  // ---------------------------------------------------------------------------------------
  // Specification
  // ---------------------------------------------------------------------------------------

  function Elements(s: seq<Code>): set<Code> {
    set c | c in s
  }

  /** `PAGE_PERMISSION_GRANTS.get(code, ())` */
  function GrantsOf(cat: Catalog, code: Code): set<Code> {
    if code in cat.grants then Elements(cat.grants[code]) else {}
  }

  /** Everything some code of `from` declares. */
  function Declared(cat: Catalog, from: set<Code>): set<Code> {
    set c, x | c in from && x in GrantsOf(cat, c) :: x
  }

  function NonBlank(codes: set<Code>): set<Code> {
    set c | c in codes && !AllSpace(c)
  }

  /** The submitted codes, what they declare, and what the declared pages declare. */
  function Covered(cat: Catalog, granted: set<Code>): set<Code> {
    var declared := Declared(cat, granted);
    granted + declared + Declared(cat, declared * cat.pages)
  }

  /** The pages that list `code`, in catalog order: `PAGE_CODES_BY_GRANTED`. */
  function PagesGranting(cat: Catalog, order: seq<Code>, code: Code): seq<Code> {
    if order == [] then []
    else
      PagesGranting(cat, order[..|order| - 1], code) +
      if code in GrantsOf(cat, order[|order| - 1]) then [order[|order| - 1]] else []
  }

  function FirstCovered(cat: Catalog, candidates: seq<Code>, covered: set<Code>): Option<Code> {
    if candidates == [] then None
    else if GrantsOf(cat, candidates[0]) <= covered then Some(candidates[0])
    else FirstCovered(cat, candidates[1..], covered)
  }

  /** The page added for a capability: the first one that grants nothing new. */
  function PageFor(cat: Catalog, code: Code, covered: set<Code>): Option<Code> {
    FirstCovered(cat, PagesGranting(cat, cat.order, code), covered)
  }

  function PagesFor(cat: Catalog, codes: set<Code>, covered: set<Code>): set<Code> {
    set c | c in codes && PageFor(cat, c, covered).Some? :: PageFor(cat, c, covered).value
  }

  function Implied(cat: Catalog, covered: set<Code>): set<Code> {
    PagesFor(cat, covered - cat.pages, covered)
  }

  function Compile(cat: Catalog, codes: set<Code>): set<Code> {
    var covered := Covered(cat, NonBlank(codes));
    covered + Implied(cat, covered)
  }

  const WILDCARD: Code := "*"
  const SUPER_ADMIN_ROLE := "SUPER_ADMIN"

  function Submitted(codes: set<Code>): set<Code> {
    set c | c in codes && !AllSpace(c) :: Strip(c)
  }

  function GrantedByPages(cat: Catalog, submitted: set<Code>): set<Code> {
    Declared(cat, submitted * cat.pages)
  }

  function Resolve(cat: Catalog, codes: set<Code>): set<Code> {
    var submitted := Submitted(codes);
    if WILDCARD in submitted then {WILDCARD}
    else
      var pageCodes := submitted * cat.pages;
      var explicit := submitted - pageCodes - GrantedByPages(cat, submitted);
      Compile(cat, pageCodes + explicit)
  }

  /** `DERIVED_PERMISSION_CODES` */
  function Derived(cat: Catalog): set<Code> {
    set p, x | p in cat.grants && x in cat.grants[p] && x != p :: x
  }

  /** What `desired_codes` keeps of a stored role: its pages and its deliberate grants. */
  function Selection(cat: Catalog, stored: set<Code>): set<Code> {
    set c | c in stored && (c in cat.pages || c !in Derived(cat))
  }

  function Desired(cat: Catalog, roleCode: string, stored: set<Code>): set<Code> {
    if roleCode == SUPER_ADMIN_ROLE then {WILDCARD} else Compile(cat, Selection(cat, stored))
  }

  /** Whatever declares a capability other than itself is a page. */
  ghost predicate PagesOnlyImply(cat: Catalog) {
    forall p, x :: p in cat.grants && x in cat.grants[p] && x !in cat.pages && x != p ==> p in cat.pages
  }

  ghost predicate NoBlankCodes(cat: Catalog) {
    && (forall p :: p in cat.grants ==> !AllSpace(p))
    && (forall p, x :: p in cat.grants && x in cat.grants[p] ==> !AllSpace(x))
  }

  // ---------------------------------------------------------------------------------------
  // The code, loop by loop
  // ---------------------------------------------------------------------------------------

  /** `PAGE_CODES_BY_GRANTED.get(code, ())` */
  function Listed(reverse: map<Code, seq<Code>>, code: Code): seq<Code> {
    if code in reverse then reverse[code] else []
  }

  /** Under every code the old list, with the page behind it where it has been entered. */
  ghost predicate Entered(r: map<Code, seq<Code>>, reverse: map<Code, seq<Code>>, page: Code, done: seq<Code>) {
    forall c :: Listed(r, c) == Listed(reverse, c) + if c in done then [page] else []
  }

  /** The inner loop over one page's tuple; a code listed twice is entered once. */
  method AddPage(reverse: map<Code, seq<Code>>, page: Code, granted: seq<Code>) returns (r: map<Code, seq<Code>>)
    requires forall c :: page !in Listed(reverse, c)
    ensures forall c :: Listed(r, c) == Listed(reverse, c) + if c in granted then [page] else []
  {
    r := reverse;
    for j := 0 to |granted|
      invariant Entered(r, reverse, page, granted[..j])
    {
      EnterOne(r, reverse, page, granted, j);
      var known := Listed(r, granted[j]);
      if page !in known {
        r := r[granted[j] := known + [page]];
      }
    }
    assert granted[..|granted|] == granted;
  }

  lemma EnterOne(r: map<Code, seq<Code>>, reverse: map<Code, seq<Code>>, page: Code, granted: seq<Code>, j: nat)
    requires j < |granted| && Entered(r, reverse, page, granted[..j]) && page !in Listed(reverse, granted[j])
    ensures
      var known := Listed(r, granted[j]);
      Entered(if page !in known then r[granted[j] := known + [page]] else r, reverse, page, granted[..j + 1])
  {
    var known := Listed(r, granted[j]);
    var next := if page !in known then r[granted[j] := known + [page]] else r;
    forall c
      ensures Listed(next, c) == Listed(reverse, c) + if c in granted[..j + 1] then [page] else []
    {
      EnteredAt(r, next, reverse, page, granted[..j], granted[j], c);
      assert granted[..j + 1] == granted[..j] + [granted[j]];
    }
  }

  /** One code's list. */
  lemma EnteredAt(r: map<Code, seq<Code>>, next: map<Code, seq<Code>>, reverse: map<Code, seq<Code>>,
                  page: Code, done: seq<Code>, source: Code, c: Code)
    requires Listed(r, source) == Listed(reverse, source) + if source in done then [page] else []
    requires Listed(r, c) == Listed(reverse, c) + if c in done then [page] else []
    requires page !in Listed(reverse, source)
    requires next == if page !in Listed(r, source) then r[source := Listed(r, source) + [page]] else r
    ensures Listed(next, c) == Listed(reverse, c) + if c in done + [source] then [page] else []
  {
  }

  /** The module-level loop that fills `PAGE_CODES_BY_GRANTED`. */
  method BuildReverse(cat: Catalog) returns (reverse: map<Code, seq<Code>>)
    requires Valid(cat)
    ensures forall c :: Listed(reverse, c) == PagesGranting(cat, cat.order, c)
  {
    reverse := map[];
    for i := 0 to |cat.order|
      invariant forall c :: Listed(reverse, c) == PagesGranting(cat, cat.order[..i], c)
    {
      var page := cat.order[i];
      assert cat.order[..i + 1][..i] == cat.order[..i];
      PageNotYetListed(cat, i);
      reverse := AddPage(reverse, page, cat.grants[page]);
    }
    assert cat.order[..|cat.order|] == cat.order;
  }

  lemma PageNotYetListed(cat: Catalog, i: nat)
    requires Valid(cat) && i < |cat.order|
    ensures forall c :: cat.order[i] !in PagesGranting(cat, cat.order[..i], c)
  {
    forall c
      ensures cat.order[i] !in PagesGranting(cat, cat.order[..i], c)
    {
      ListedInOrder(cat, cat.order[..i], c);
    }
  }

  lemma {:induction false} ListedInOrder(cat: Catalog, order: seq<Code>, c: Code)
    ensures forall p :: p in PagesGranting(cat, order, c) <==> p in order && c in GrantsOf(cat, p)
  {
    if order != [] {
      ListedInOrder(cat, order[..|order| - 1], c);
      assert order == order[..|order| - 1] + [order[|order| - 1]];
    }
  }

  lemma DeclaredMore(cat: Catalog, from: set<Code>, code: Code)
    ensures Declared(cat, from + {code}) == Declared(cat, from) + GrantsOf(cat, code)
  {
  }

  lemma PagesForMore(cat: Catalog, codes: set<Code>, code: Code, covered: set<Code>)
    ensures PagesFor(cat, codes + {code}, covered) ==
            PagesFor(cat, codes, covered) + if PageFor(cat, code, covered).Some? then {PageFor(cat, code, covered).value} else {}
  {
  }

  /** `declared.update(...)` for every code of `from`. */
  method CollectDeclared(cat: Catalog, from: set<Code>) returns (declared: set<Code>)
    ensures declared == Declared(cat, from)
  {
    declared := {};
    var todo := from;
    while todo != {}
      invariant todo <= from && declared == Declared(cat, from - todo)
    {
      var code :| code in todo;
      DeclaredMore(cat, from - todo, code);
      assert from - (todo - {code}) == from - todo + {code};
      declared := declared + GrantsOf(cat, code);
      todo := todo - {code};
    }
    assert from - todo == from;
  }

  method FindPage(cat: Catalog, candidates: seq<Code>, covered: set<Code>) returns (page: Option<Code>)
    ensures page == FirstCovered(cat, candidates, covered)
  {
    for i := 0 to |candidates|
      invariant FirstCovered(cat, candidates, covered) == FirstCovered(cat, candidates[i..], covered)
    {
      if GrantsOf(cat, candidates[i]) <= covered {
        return Some(candidates[i]);
      }
    }
    return None;
  }

  method CompileRolePermissions(cat: Catalog, reverse: map<Code, seq<Code>>, codes: set<Code>) returns (result: set<Code>)
    requires forall c :: Listed(reverse, c) == PagesGranting(cat, cat.order, c)
    ensures result == Compile(cat, codes)
  {
    var granted := set c | c in codes && !AllSpace(c);
    var declared := CollectDeclared(cat, granted);
    var second := CollectDeclared(cat, declared * cat.pages);
    var covered := granted + (declared + second);
    assert covered == Covered(cat, NonBlank(codes));
    var impliedPages: set<Code> := {};
    var todo := covered - cat.pages;
    while todo != {}
      invariant todo <= covered - cat.pages
      invariant impliedPages == PagesFor(cat, covered - cat.pages - todo, covered)
    {
      var code :| code in todo;
      var page := FindPage(cat, Listed(reverse, code), covered);
      PagesForMore(cat, covered - cat.pages - todo, code, covered);
      assert covered - cat.pages - (todo - {code}) == covered - cat.pages - todo + {code};
      if page.Some? {
        impliedPages := impliedPages + {page.value};
      }
      todo := todo - {code};
    }
    assert covered - cat.pages - todo == covered - cat.pages;
    result := covered + impliedPages;
  }

  // ---------------------------------------------------------------------------------------
  // The compiler never widens
  // ---------------------------------------------------------------------------------------

  lemma {:induction false} FirstCoveredFits(cat: Catalog, candidates: seq<Code>, covered: set<Code>)
    ensures
      match FirstCovered(cat, candidates, covered)
      case Some(p) => p in candidates && GrantsOf(cat, p) <= covered
      case None => forall p :: p in candidates ==> !(GrantsOf(cat, p) <= covered)
  {
    if candidates != [] {
      FirstCoveredFits(cat, candidates[1..], covered);
      assert candidates == [candidates[0]] + candidates[1..];
    }
  }

  /** Every page added for a capability grants only what is covered already. */
  lemma ImpliedPage(cat: Catalog, covered: set<Code>, page: Code)
    requires page in Implied(cat, covered)
    ensures GrantsOf(cat, page) <= covered
    ensures exists c :: c in covered && c !in cat.pages && c in GrantsOf(cat, page)
    ensures PagesOnlyImply(cat) ==> page in cat.pages || page in covered
  {
    var c :| c in covered - cat.pages && PageFor(cat, c, covered) == Some(page);
    FirstCoveredFits(cat, PagesGranting(cat, cat.order, c), covered);
    ListedInOrder(cat, cat.order, c);
  }

  /** Submitted, or one grant away, or two grants away through a declared page. */
  ghost predicate Reached(cat: Catalog, from: set<Code>, c: Code) {
    || c in from
    || (exists g :: g in from && c in GrantsOf(cat, g))
    || (exists g, q :: g in from && q in GrantsOf(cat, g) && q in cat.pages && c in GrantsOf(cat, q))
  }

  lemma CoveredIsReached(cat: Catalog, from: set<Code>, c: Code)
    ensures c in Covered(cat, from) <==> Reached(cat, from, c)
  {
    var declared := Declared(cat, from);
    if c in Declared(cat, declared * cat.pages) {
      var q :| q in declared * cat.pages && c in GrantsOf(cat, q);
      var g :| g in from && q in GrantsOf(cat, g);
    }
    if exists g, q :: g in from && q in GrantsOf(cat, g) && q in cat.pages && c in GrantsOf(cat, q) {
      var g, q :| g in from && q in GrantsOf(cat, g) && q in cat.pages && c in GrantsOf(cat, q);
      assert q in declared * cat.pages;
    }
  }

  /**
   The capabilities of a compiled role are exactly the submitted ones and those at most two
   declared steps away; pages added on the way back bring none.
   */
  lemma CompileNeverWidens(cat: Catalog, codes: set<Code>, c: Code)
    requires PagesOnlyImply(cat) && c !in cat.pages
    ensures c in Compile(cat, codes) <==> Reached(cat, NonBlank(codes), c)
  {
    var covered := Covered(cat, NonBlank(codes));
    CoveredIsReached(cat, NonBlank(codes), c);
    if c in Implied(cat, covered) {
      ImpliedPage(cat, covered, c);
    }
  }

  /** A page the compiler adds on its own opens nothing that was not open before. */
  lemma AddedPagesGrantNothingNew(cat: Catalog, codes: set<Code>, page: Code)
    requires page in Compile(cat, codes) && !Reached(cat, NonBlank(codes), page)
    ensures forall x :: x in GrantsOf(cat, page) ==> Reached(cat, NonBlank(codes), x)
  {
    var covered := Covered(cat, NonBlank(codes));
    CoveredIsReached(cat, NonBlank(codes), page);
    ImpliedPage(cat, covered, page);
    forall x | x in GrantsOf(cat, page)
      ensures Reached(cat, NonBlank(codes), x)
    {
      CoveredIsReached(cat, NonBlank(codes), x);
    }
  }

  // ---------------------------------------------------------------------------------------
  // What the compiler returns, exactly
  // ---------------------------------------------------------------------------------------

  lemma {:induction false} FirstOfSum(cat: Catalog, a: seq<Code>, b: seq<Code>, covered: set<Code>)
    ensures FirstCovered(cat, a + b, covered) ==
            if FirstCovered(cat, a, covered).Some? then FirstCovered(cat, a, covered) else FirstCovered(cat, b, covered)
  {
    if a == [] {
      assert a + b == b;
    } else {
      assert (a + b)[1..] == a[1..] + b;
      FirstOfSum(cat, a[1..], b, covered);
    }
  }

  /** In catalog order, page `j` is the first one that grants the code and fits. */
  ghost predicate FirstInOrder(cat: Catalog, order: seq<Code>, c: Code, covered: set<Code>, j: int) {
    && 0 <= j < |order| && c in GrantsOf(cat, order[j]) && GrantsOf(cat, order[j]) <= covered
    && forall i :: 0 <= i < j && c in GrantsOf(cat, order[i]) ==> !(GrantsOf(cat, order[i]) <= covered)
  }

  lemma {:induction false} FirstCoveredIff(cat: Catalog, order: seq<Code>, c: Code, covered: set<Code>, p: Code)
    ensures FirstCovered(cat, PagesGranting(cat, order, c), covered) == Some(p) <==>
            exists j :: FirstInOrder(cat, order, c, covered, j) && order[j] == p
  {
    if order != [] {
      var n := |order| - 1;
      var init := order[..n];
      var last := if c in GrantsOf(cat, order[n]) then [order[n]] else [];
      FirstCoveredIff(cat, init, c, covered, p);
      FirstOfSum(cat, PagesGranting(cat, init, c), last, covered);
      assert last != [] ==> last[1..] == [];
      FirstCoveredFits(cat, PagesGranting(cat, init, c), covered);
      ListedInOrder(cat, init, c);
      OneMorePage(cat, order, c, covered, p, FirstCovered(cat, PagesGranting(cat, init, c), covered));
    }
  }

  /** The last page of the order comes first only if none before it fits. */
  lemma OneMorePage(cat: Catalog, order: seq<Code>, c: Code, covered: set<Code>, p: Code, before: Option<Code>)
    requires order != []
    requires var init := order[..|order| - 1];
      && (before == Some(p) <==> exists j :: FirstInOrder(cat, init, c, covered, j) && init[j] == p)
      && (before.None? <==> forall i :: 0 <= i < |init| && c in GrantsOf(cat, init[i]) ==> !(GrantsOf(cat, init[i]) <= covered))
    ensures var n := |order| - 1;
      (exists j :: FirstInOrder(cat, order, c, covered, j) && order[j] == p) <==>
      before == Some(p) || (before.None? && order[n] == p && c in GrantsOf(cat, p) && GrantsOf(cat, p) <= covered)
  {
    var n := |order| - 1;
    var init := order[..n];
    assert forall i :: 0 <= i < n ==> init[i] == order[i];
    assert forall j :: 0 <= j < n ==> (FirstInOrder(cat, order, c, covered, j) <==> FirstInOrder(cat, init, c, covered, j));
    if before == Some(p) {
      var j :| FirstInOrder(cat, init, c, covered, j) && init[j] == p;
      assert FirstInOrder(cat, order, c, covered, j) && order[j] == p;
    } else if before.None? && order[n] == p && c in GrantsOf(cat, p) && GrantsOf(cat, p) <= covered {
      assert FirstInOrder(cat, order, c, covered, n);
    }
    if j :| FirstInOrder(cat, order, c, covered, j) && order[j] == p {
      if j < n {
        assert FirstInOrder(cat, init, c, covered, j) && init[j] == p;
      }
    }
  }

  /** A page added for a capability in reach: the first in catalog order whose grants are all in reach. */
  ghost predicate FirstFit(cat: Catalog, from: set<Code>, p: Code) {
    exists c, j ::
      && c !in cat.pages && Reached(cat, from, c)
      && 0 <= j < |cat.order| && cat.order[j] == p
      && c in GrantsOf(cat, p) && OnlyReached(cat, from, p)
      && forall i :: 0 <= i < j && c in GrantsOf(cat, cat.order[i]) ==> !OnlyReached(cat, from, cat.order[i])
  }

  ghost predicate OnlyReached(cat: Catalog, from: set<Code>, p: Code) {
    forall x :: x in GrantsOf(cat, p) ==> Reached(cat, from, x)
  }

  lemma OnlyReachedIff(cat: Catalog, from: set<Code>, p: Code)
    ensures OnlyReached(cat, from, p) <==> GrantsOf(cat, p) <= Covered(cat, from)
  {
    forall x
      ensures x in Covered(cat, from) <==> Reached(cat, from, x)
    {
      CoveredIsReached(cat, from, x);
    }
  }

  lemma ImpliedIsFirstFit(cat: Catalog, from: set<Code>, p: Code)
    ensures p in Implied(cat, Covered(cat, from)) <==> FirstFit(cat, from, p)
  {
    var covered := Covered(cat, from);
    forall q
      ensures OnlyReached(cat, from, q) <==> GrantsOf(cat, q) <= covered
    {
      OnlyReachedIff(cat, from, q);
    }
    forall c
      ensures c in covered <==> Reached(cat, from, c)
      ensures PageFor(cat, c, covered) == Some(p) <==> exists j :: FirstInOrder(cat, cat.order, c, covered, j) && cat.order[j] == p
    {
      CoveredIsReached(cat, from, c);
      FirstCoveredIff(cat, cat.order, c, covered, p);
    }
    if p in Implied(cat, covered) {
      var c :| c in covered - cat.pages && PageFor(cat, c, covered) == Some(p);
      var j :| FirstInOrder(cat, cat.order, c, covered, j) && cat.order[j] == p;
      assert FirstFit(cat, from, p);
    }
    if FirstFit(cat, from, p) {
      var c, j :|
        && c !in cat.pages && Reached(cat, from, c)
        && 0 <= j < |cat.order| && cat.order[j] == p
        && c in GrantsOf(cat, p) && OnlyReached(cat, from, p)
        && forall i :: 0 <= i < j && c in GrantsOf(cat, cat.order[i]) ==> !OnlyReached(cat, from, cat.order[i]);
      assert FirstInOrder(cat, cat.order, c, covered, j);
      assert c in covered - cat.pages && PageFor(cat, c, covered) == Some(p);
    }
  }

  /** The result, code by code: what is in reach of the codes given, blank ones aside, and the pages that fit. */
  lemma CompileExactly(cat: Catalog, codes: set<Code>, c: Code)
    ensures var from := set g | g in codes && !AllSpace(g);
      c in Compile(cat, codes) <==> Reached(cat, from, c) || FirstFit(cat, from, c)
  {
    var from := set g | g in codes && !AllSpace(g);
    assert NonBlank(codes) == from;
    CoveredIsReached(cat, from, c);
    ImpliedIsFirstFit(cat, from, c);
  }

  /** `desired_codes`: the same from the role's pages and from the codes that no other entry grants. */
  lemma DesiredExactly(cat: Catalog, roleCode: string, stored: set<Code>, c: Code)
    ensures roleCode == "SUPER_ADMIN" ==> Desired(cat, roleCode, stored) == {"*"}
    ensures roleCode != "SUPER_ADMIN" ==>
      var from := set g | g in stored && !AllSpace(g) && (g in cat.pages || forall p :: p in cat.grants && g in cat.grants[p] ==> p == g);
      c in Desired(cat, roleCode, stored) <==> Reached(cat, from, c) || FirstFit(cat, from, c)
  {
    var from := set g | g in stored && !AllSpace(g) && (g in cat.pages || forall p :: p in cat.grants && g in cat.grants[p] ==> p == g);
    forall g
      ensures g in Derived(cat) <==> exists p :: p in cat.grants && g in cat.grants[p] && p != g
    {
    }
    assert NonBlank(Selection(cat, stored)) == from;
    assert (set g | g in Selection(cat, stored) && !AllSpace(g)) == from;
    CompileExactly(cat, Selection(cat, stored), c);
  }

  // ---------------------------------------------------------------------------------------
  // What an administrator submitted
  // ---------------------------------------------------------------------------------------

  /** No submitted code is lost, unless the wildcard replaces them all. */
  lemma ResolveKeepsSubmitted(cat: Catalog, codes: set<Code>)
    requires WILDCARD !in Submitted(codes)
    ensures Submitted(codes) <= Resolve(cat, codes)
  {
    var submitted := Submitted(codes);
    var pageCodes := submitted * cat.pages;
    var kept := pageCodes + (submitted - pageCodes - GrantedByPages(cat, submitted));
    forall c | c in submitted
      ensures c in Resolve(cat, codes)
    {
      var raw :| raw in codes && !AllSpace(raw) && Strip(raw) == c;
      assert !AllSpace(c);
      if c !in kept {
        var p :| p in pageCodes && c in GrantsOf(cat, p);
        var raw' :| raw' in codes && !AllSpace(raw') && Strip(raw') == p;
        assert p in NonBlank(kept);
        assert c in Declared(cat, NonBlank(kept));
      }
    }
  }

  /** Resubmitting capabilities that a selected page grants anyway changes nothing. */
  lemma ResolveIgnoresGranted(cat: Catalog, codes: set<Code>, extra: set<Code>)
    requires WILDCARD !in Submitted(codes) && WILDCARD !in Submitted(extra)
    requires forall c :: c in Submitted(extra) ==> c !in cat.pages && c in GrantedByPages(cat, Submitted(codes))
    ensures Resolve(cat, codes + extra) == Resolve(cat, codes)
  {
    assert Submitted(codes + extra) == Submitted(codes) + Submitted(extra);
    assert Submitted(codes + extra) * cat.pages == Submitted(codes) * cat.pages;
    var pageCodes := Submitted(codes) * cat.pages;
    assert Submitted(codes + extra) - pageCodes - GrantedByPages(cat, Submitted(codes)) ==
           Submitted(codes) - pageCodes - GrantedByPages(cat, Submitted(codes));
  }

  /** Some submitted page grants the code. */
  predicate PageGrants(cat: Catalog, codes: set<Code>, g: Code) {
    exists raw :: raw in codes && !AllSpace(raw) && Strip(raw) in cat.pages && g in GrantsOf(cat, Strip(raw))
  }

  /** What counts as submitted: the pages, and the codes that no submitted page grants. */
  function Kept(cat: Catalog, codes: set<Code>): set<Code> {
    set raw | raw in codes && !AllSpace(raw) && (Strip(raw) in cat.pages || !PageGrants(cat, codes, Strip(raw))) :: Strip(raw)
  }

  lemma ResolveCompilesKept(cat: Catalog, codes: set<Code>)
    requires WILDCARD !in Submitted(codes)
    ensures Resolve(cat, codes) == Compile(cat, Kept(cat, codes))
  {
    var submitted := Submitted(codes);
    var pageCodes := submitted * cat.pages;
    forall g
      ensures g in GrantedByPages(cat, submitted) <==> PageGrants(cat, codes, g)
    {
    }
    assert Kept(cat, codes) == pageCodes + (submitted - pageCodes - GrantedByPages(cat, submitted));
  }

  /**
   Main result for a save: with a wildcard the role is the wildcard; otherwise it holds exactly
   what is in reach of the submitted pages and of the codes none of them grants, and the pages
   that fit.
   */
  lemma ResolveExactly(cat: Catalog, codes: set<Code>, c: Code)
    ensures (exists raw :: raw in codes && Strip(raw) == "*") ==> Resolve(cat, codes) == {"*"}
    ensures !(exists raw :: raw in codes && Strip(raw) == "*") ==>
      (c in Resolve(cat, codes) <==> Reached(cat, Kept(cat, codes), c) || FirstFit(cat, Kept(cat, codes), c))
  {
    assert !AllSpace("*") by {
      assert !IsSpace("*"[0]);
    }
    if raw :| raw in codes && Strip(raw) == "*" {
      assert !AllSpace(raw);
      assert WILDCARD in Submitted(codes);
    } else {
      ResolveCompilesKept(cat, codes);
      CompileExactly(cat, Kept(cat, codes), c);
      assert (set g | g in Kept(cat, codes) && !AllSpace(g)) == Kept(cat, codes);
    }
  }

  /** Its capabilities are exactly those in reach; what only an unticked page opened is gone. */
  lemma ResolveNeverWidens(cat: Catalog, codes: set<Code>, c: Code)
    requires PagesOnlyImply(cat) && !exists raw :: raw in codes && Strip(raw) == "*"
    ensures c !in cat.pages ==> (c in Resolve(cat, codes) <==> Reached(cat, Kept(cat, codes), c))
    ensures c in cat.pages && c in Resolve(cat, codes) ==> Reached(cat, Kept(cat, codes), c) || OnlyReached(cat, Kept(cat, codes), c)
  {
    ResolveExactly(cat, codes, c);
    if FirstFit(cat, Kept(cat, codes), c) && c !in cat.pages {
      assert c in cat.grants ==> OnlyReached(cat, Kept(cat, codes), c);
      ImpliedIsFirstFit(cat, Kept(cat, codes), c);
      ImpliedPage(cat, Covered(cat, Kept(cat, codes)), c);
      CoveredIsReached(cat, Kept(cat, codes), c);
    }
  }

  /** Through a code that a page grants, the catalog opens no capability the page does not open. */
  ghost predicate GrantedOpensNothing(cat: Catalog) {
    && (forall p, d, c :: p in cat.pages && d in GrantsOf(cat, p) && d !in cat.pages && c in GrantsOf(cat, d) && c !in cat.pages ==> OpenedBy(cat, p, c))
    && (forall p, d, q, c ::
          (p in cat.pages && d in GrantsOf(cat, p) && d !in cat.pages && q in GrantsOf(cat, d) && q in cat.pages
           && c in GrantsOf(cat, q) && c !in cat.pages) ==> OpenedBy(cat, p, c))
  }

  ghost predicate OpenedBy(cat: Catalog, p: Code, c: Code) {
    c in GrantsOf(cat, p) || exists m :: m in GrantsOf(cat, p) && m in cat.pages && c in GrantsOf(cat, m)
  }

  /** The capabilities of everything submitted are those of what is kept, exactly when what is dropped opens none of its own. */
  lemma ResolveReachesSubmittedIff(cat: Catalog, codes: set<Code>)
    requires PagesOnlyImply(cat) && !exists raw :: raw in codes && Strip(raw) == "*"
    ensures (forall c :: c !in cat.pages ==> (c in Resolve(cat, codes) <==> Reached(cat, Submitted(codes), c))) <==>
            forall d, c :: d in Submitted(codes) && d !in Kept(cat, codes) && c !in cat.pages && Reached(cat, {d}, c) ==> Reached(cat, Kept(cat, codes), c)
  {
    forall c
      ensures c !in cat.pages ==> (c in Resolve(cat, codes) <==> Reached(cat, Kept(cat, codes), c))
      ensures Reached(cat, Submitted(codes), c) <==> Reached(cat, Kept(cat, codes), c) || exists d :: d in Submitted(codes) && d !in Kept(cat, codes) && Reached(cat, {d}, c)
    {
      ResolveNeverWidens(cat, codes, c);
      ReachedFromParts(cat, Submitted(codes), Kept(cat, codes), c);
    }
  }

  lemma ReachedFromParts(cat: Catalog, all: set<Code>, part: set<Code>, c: Code)
    requires part <= all
    ensures Reached(cat, all, c) <==> Reached(cat, part, c) || exists d :: d in all && d !in part && Reached(cat, {d}, c)
  {
    if d :| d in all && d !in part && Reached(cat, {d}, c) {
      assert Reached(cat, all, c);
    }
    if Reached(cat, all, c) {
      var d: Code;
      if c in all {
        d := c;
      } else if g :| g in all && c in GrantsOf(cat, g) {
        d := g;
      } else {
        var g, q :| g in all && q in GrantsOf(cat, g) && q in cat.pages && c in GrantsOf(cat, q);
        d := g;
      }
      assert d in {d};
      assert Reached(cat, {d}, c);
      assert d in part ==> Reached(cat, part, c);
    }
  }

  /** A page that grants a capability, and a capability that opens another by way of a page. */
  function Detour(): Catalog {
    Catalog(["p", "d", "q"], map["p" := ["d"], "d" := ["q"], "q" := ["e"]], {"p", "q"})
  }

  lemma DetourGrants()
    ensures PagesOnlyImply(Detour())
    ensures GrantsOf(Detour(), "p") == {"d"} && GrantsOf(Detour(), "d") == {"q"} && GrantsOf(Detour(), "q") == {"e"}
    ensures Strip("p") == "p" && Strip("d") == "d" && !AllSpace("p") && !AllSpace("d")
  {
    assert !IsSpace("p"[0]) && !IsSpace("d"[0]);
  }

  lemma DetourKept()
    ensures Kept(Detour(), {"d"}) == {"d"} && Kept(Detour(), {"p", "d"}) == {"p"}
  {
    DetourGrants();
    assert !PageGrants(Detour(), {"d"}, "d");
    assert PageGrants(Detour(), {"p", "d"}, "d");
  }

  lemma DetourReached()
    ensures Reached(Detour(), {"d"}, "e") && !Reached(Detour(), {"p"}, "e")
  {
    DetourGrants();
    assert "q" in GrantsOf(Detour(), "d") && "q" in Detour().pages && "e" in GrantsOf(Detour(), "q");
  }

  /** Without that condition a save can lose a capability: ticking `p` drops `d`, and with it what `d` opened. */
  lemma DroppedCodeLosesACapability()
    ensures PagesOnlyImply(Detour()) && "e" !in Detour().pages
    ensures "e" in Resolve(Detour(), {"d"}) && "e" !in Resolve(Detour(), {"p", "d"})
  {
    var cat, one, both := Detour(), {"d"}, {"p", "d"};
    DetourGrants();
    DetourKept();
    DetourReached();
    assert forall raw :: raw in both ==> Strip(raw) == raw && raw != "*";
    ResolveNeverWidens(cat, one, "e");
    ResolveNeverWidens(cat, both, "e");
  }

  /** On such a catalog nothing submitted goes unheard: capabilities are those in reach of all submitted codes. */
  lemma ResolveReachesSubmitted(cat: Catalog, codes: set<Code>, c: Code)
    requires PagesOnlyImply(cat) && GrantedOpensNothing(cat) && !exists raw :: raw in codes && Strip(raw) == "*"
    requires c !in cat.pages
    ensures c in Resolve(cat, codes) <==> Reached(cat, Submitted(codes), c)
  {
    ResolveNeverWidens(cat, codes, c);
    ReachedFromParts(cat, Submitted(codes), Kept(cat, codes), c);
    forall d | d in Submitted(codes) && d !in Kept(cat, codes) && Reached(cat, {d}, c)
      ensures Reached(cat, Kept(cat, codes), c)
    {
      DroppedReach(cat, codes, d, c);
    }
  }

  lemma DroppedReach(cat: Catalog, codes: set<Code>, d: Code, c: Code)
    requires GrantedOpensNothing(cat) && d in Submitted(codes) && d !in Kept(cat, codes)
    requires c !in cat.pages && Reached(cat, {d}, c)
    ensures Reached(cat, Kept(cat, codes), c)
  {
    var raw :| raw in codes && !AllSpace(raw) && Strip(raw) == d;
    assert d !in cat.pages && PageGrants(cat, codes, d);
    var ticked :| ticked in codes && !AllSpace(ticked) && Strip(ticked) in cat.pages && d in GrantsOf(cat, Strip(ticked));
    var p := Strip(ticked);
    assert p in Kept(cat, codes);
    assert c == d || OpenedBy(cat, p, c);
  }

  /** `resolve_role_codes` */
  method ResolveRoleCodes(cat: Catalog, reverse: map<Code, seq<Code>>, codes: set<Code>) returns (result: set<Code>)
    requires forall c :: Listed(reverse, c) == PagesGranting(cat, cat.order, c)
    ensures result == Resolve(cat, codes)
    ensures (exists raw :: raw in codes && Strip(raw) == "*") ==> result == {"*"}
    ensures !(exists raw :: raw in codes && Strip(raw) == "*") ==>
      forall c :: c in result <==> Reached(cat, Kept(cat, codes), c) || FirstFit(cat, Kept(cat, codes), c)
  {
    forall c
      ensures (exists raw :: raw in codes && Strip(raw) == "*") ==> Resolve(cat, codes) == {"*"}
      ensures !(exists raw :: raw in codes && Strip(raw) == "*") ==>
        (c in Resolve(cat, codes) <==> Reached(cat, Kept(cat, codes), c) || FirstFit(cat, Kept(cat, codes), c))
    {
      ResolveExactly(cat, codes, c);
    }
    var submitted := set raw | raw in codes && Strip(raw) != "" :: Strip(raw);
    assert submitted == Submitted(codes);
    if "*" in submitted {
      return {"*"};
    }
    var pageCodes := submitted * cat.pages;
    var granted := CollectDeclared(cat, pageCodes);
    result := CompileRolePermissions(cat, reverse, pageCodes + (submitted - pageCodes - granted));
  }

  // ---------------------------------------------------------------------------------------
  // Rebuilding a stored role
  // ---------------------------------------------------------------------------------------

  function Rebuilt(cat: Catalog, stored: set<Code>): set<Code> {
    Compile(cat, Selection(cat, stored))
  }

  lemma RebuiltNotBlank(cat: Catalog, stored: set<Code>, c: Code)
    requires Valid(cat) && NoBlankCodes(cat) && c in Rebuilt(cat, stored)
    ensures !AllSpace(c)
  {
    var from := NonBlank(Selection(cat, stored));
    var covered := Covered(cat, from);
    CoveredIsReached(cat, from, c);
    if c !in covered {
      ImpliedPage(cat, covered, c);
      var x :| x in GrantsOf(cat, c);
    }
  }

  /** The first selection, and every page of the first result, are selected again. */
  lemma SelectedAgain(cat: Catalog, stored: set<Code>, c: Code)
    requires Valid(cat) && NoBlankCodes(cat)
    requires c in NonBlank(Selection(cat, stored)) || (c in Rebuilt(cat, stored) && c in cat.pages)
    ensures c in NonBlank(Selection(cat, Rebuilt(cat, stored)))
  {
    assert c in Rebuilt(cat, stored);
    RebuiltNotBlank(cat, stored, c);
  }

  lemma CoveredStays(cat: Catalog, stored: set<Code>, c: Code)
    requires Valid(cat) && NoBlankCodes(cat)
    requires c in Covered(cat, NonBlank(Selection(cat, stored)))
    ensures c in Covered(cat, NonBlank(Selection(cat, Rebuilt(cat, stored))))
  {
    var from := NonBlank(Selection(cat, stored));
    var from2 := NonBlank(Selection(cat, Rebuilt(cat, stored)));
    var declared := Declared(cat, from);
    if c in from {
      SelectedAgain(cat, stored, c);
    } else if c in declared {
      var g :| g in from && c in GrantsOf(cat, g);
      SelectedAgain(cat, stored, g);
    } else {
      var q :| q in declared * cat.pages && c in GrantsOf(cat, q);
      SelectedAgain(cat, stored, q);
      assert c in Declared(cat, from2);
    }
  }

  /** A rebuild of a rebuilt role never takes a code away. */
  lemma RebuildOnlyGrows(cat: Catalog, stored: set<Code>)
    requires Valid(cat) && PagesOnlyImply(cat) && NoBlankCodes(cat)
    ensures Rebuilt(cat, stored) <= Rebuilt(cat, Rebuilt(cat, stored))
  {
    var covered := Covered(cat, NonBlank(Selection(cat, stored)));
    forall c | c in Rebuilt(cat, stored)
      ensures c in Rebuilt(cat, Rebuilt(cat, stored))
    {
      if c in covered {
        CoveredStays(cat, stored, c);
      } else {
        ImpliedPage(cat, covered, c);
        SelectedAgain(cat, stored, c);
      }
    }
  }

  /** All codes that can ever appear: those stored and those of the catalog. */
  function Universe(cat: Catalog, stored: set<Code>): set<Code> {
    stored + (set p | p in cat.grants) + (set p, x | p in cat.grants && x in cat.grants[p] :: x)
  }

  lemma RebuiltInUniverse(cat: Catalog, stored: set<Code>, known: set<Code>)
    requires Valid(cat) && Universe(cat, stored) <= known
    ensures Rebuilt(cat, stored) <= known
  {
    var from := NonBlank(Selection(cat, stored));
    var covered := Covered(cat, from);
    forall c | c in Rebuilt(cat, stored)
      ensures c in known
    {
      CoveredIsReached(cat, from, c);
      if c !in covered {
        ImpliedPage(cat, covered, c);
        var x :| x in GrantsOf(cat, c);
        assert c in cat.grants;
      }
    }
  }

  lemma SubsetIsSmaller<T>(a: set<T>, b: set<T>)
    requires a <= b
    ensures |a| <= |b| && (a != b ==> |a| < |b|)
  {
    assert b == a + (b - a);
    if a != b {
      assert b - a != {};
    }
  }

  function Iterate<T>(f: T -> T, x: T, n: nat): T
    decreases n
  {
    if n == 0 then x else Iterate(f, f(x), n - 1)
  }

  /** A step that stays inside a finite set and never takes anything away comes to rest. */
  lemma {:induction false} ClimbEnds<T(!new)>(f: set<T> -> set<T>, x: set<T>, known: set<T>) returns (n: nat)
    requires x <= known && x <= f(x)
    requires forall y :: y <= known ==> f(y) <= known && f(y) <= f(f(y))
    ensures n <= |known| - |x|
    ensures f(Iterate(f, x, n)) == Iterate(f, x, n)
    decreases |known| - |x|
  {
    SubsetIsSmaller(x, known);
    if f(x) == x {
      n := 0;
    } else {
      SubsetIsSmaller(x, f(x));
      SubsetIsSmaller(f(x), known);
      var m := ClimbEnds(f, f(x), known);
      n := m + 1;
    }
  }

  /** The rebuild of one role, as a step to be repeated. */
  function RebuildOf(cat: Catalog, roleCode: string): set<Code> -> set<Code> {
    (stored: set<Code>) => Desired(cat, roleCode, stored)
  }

  lemma RebuildClimbs(cat: Catalog, roleCode: string, stored: set<Code>, y: set<Code>)
    requires Valid(cat) && PagesOnlyImply(cat) && NoBlankCodes(cat) && roleCode != SUPER_ADMIN_ROLE
    requires y <= Universe(cat, stored)
    ensures RebuildOf(cat, roleCode)(y) <= Universe(cat, stored)
    ensures RebuildOf(cat, roleCode)(y) <= RebuildOf(cat, roleCode)(RebuildOf(cat, roleCode)(y))
  {
    assert Universe(cat, y) <= Universe(cat, stored);
    RebuiltInUniverse(cat, y, Universe(cat, stored));
    RebuildOnlyGrows(cat, y);
  }

  /** `f` stays below `known` and only adds to what it has produced. */
  ghost predicate Climbs(f: set<Code> -> set<Code>, known: set<Code>) {
    forall y :: y <= known ==> f(y) <= known && f(y) <= f(f(y))
  }

  lemma RebuildClimbsEverywhere(cat: Catalog, roleCode: string, stored: set<Code>)
    requires Valid(cat) && PagesOnlyImply(cat) && NoBlankCodes(cat) && roleCode != SUPER_ADMIN_ROLE
    ensures Climbs(RebuildOf(cat, roleCode), Universe(cat, stored))
    ensures stored <= Universe(cat, stored)
  {
    forall y | y <= Universe(cat, stored)
      ensures RebuildOf(cat, roleCode)(y) <= Universe(cat, stored)
      ensures RebuildOf(cat, roleCode)(y) <= RebuildOf(cat, roleCode)(RebuildOf(cat, roleCode)(y))
    {
      RebuildClimbs(cat, roleCode, stored, y);
    }
  }

  /** One application first, so that the climb starts from something it has produced. */
  lemma ClimbSettles(f: set<Code> -> set<Code>, x: set<Code>, known: set<Code>) returns (n: nat)
    requires Climbs(f, known) && x <= known
    ensures n <= |known| + 1 && f(Iterate(f, x, n)) == Iterate(f, x, n)
  {
    var m := ClimbEnds(f, f(x), known);
    n := m + 1;
  }

  /**
   A stored role in any condition settles: after at most as many rebuilds as there are codes,
   plus one, a further rebuild changes nothing.
   */
  lemma AnyRoleSettles(cat: Catalog, roleCode: string, stored: set<Code>) returns (n: nat)
    requires Valid(cat) && PagesOnlyImply(cat) && NoBlankCodes(cat) && roleCode != SUPER_ADMIN_ROLE
    ensures n <= |Universe(cat, stored)| + 1
    ensures Desired(cat, roleCode, Iterate(RebuildOf(cat, roleCode), stored, n)) == Iterate(RebuildOf(cat, roleCode), stored, n)
  {
    RebuildClimbsEverywhere(cat, roleCode, stored);
    n := ClimbSettles(RebuildOf(cat, roleCode), stored, Universe(cat, stored));
  }
}
