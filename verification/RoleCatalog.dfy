/**
 Excerpts of the shipped catalog, `PAGE_PERMISSION_GRANTS`, with its entries in their order.

 `AccessExcerpt` holds the entries that grant both capabilities and pages in the configuration
 and user families, the entries they compete with, and the one code that grants itself (with one
 of the pages it opens).
 */
module RoleCatalog {
  import opened Wrappers
  import opened Text
  import opened RoleCompiler
  import opened RoleIdempotence

  const ORDER: seq<Code> := [
    "configuration.view", "configuration.create", "configuration.update", "configuration.delete", "configuration.edit",
    "admin.users.view", "admin.users.create", "admin.users.update", "admin.users.delete", "admin.users.edit",
    "master.reference.manage", "admin.user_manage", "configuration.configure"]

  const GRANTS: map<Code, seq<Code>> := map[
    "configuration.view" := ["configuration.read", "configuration.compare", "service_order_config.view"],
    "configuration.create" := ["service_order_config.create"],
    "configuration.update" := [
      "configuration.configure", "configuration.publish", "configuration.activate", "configuration.rollback",
      "service_order_config.update", "service_order_config.publish"],
    "configuration.delete" := ["service_order_config.delete"],
    "configuration.edit" := [
      "configuration.configure", "configuration.publish", "configuration.activate", "configuration.rollback",
      "service_order_config.create", "service_order_config.update", "service_order_config.delete", "service_order_config.publish"],
    "admin.users.view" := ["user.read"],
    "admin.users.create" := ["user.manage"],
    "admin.users.update" := ["user.manage"],
    "admin.users.delete" := ["user.manage"],
    "admin.users.edit" := ["user.manage"],
    "master.reference.manage" := ["master.reference.manage", "master.currencies.create"],
    "admin.user_manage" := [
      "user.read", "user.manage", "admin.users.view", "admin.users.create", "admin.users.update", "admin.users.delete", "admin.users.edit"],
    "configuration.configure" := [
      "configuration.read", "configuration.compare", "configuration.publish", "configuration.activate", "configuration.rollback",
      "service_order_config.view", "service_order_config.update", "service_order_config.publish"]]

  const CONFIGURATION_PAGES: set<Code> := {
    "configuration.view", "configuration.create", "configuration.update", "configuration.delete", "configuration.edit", "configuration.configure"}

  const USER_PAGES: set<Code> := {
    "admin.users.view", "admin.users.create", "admin.users.update", "admin.users.delete", "admin.users.edit", "admin.user_manage"}

  function AccessExcerpt(): Catalog {
    Catalog(ORDER, GRANTS, CONFIGURATION_PAGES + USER_PAGES + {"master.currencies.create"})
  }

  predicate IsPage(c: Code) {
    c in CONFIGURATION_PAGES || c in USER_PAGES || c == "master.currencies.create"
  }

  /** These entries grant capabilities only. */
  predicate GrantsNoPage(g: Code) {
    g !in {"configuration.update", "configuration.edit", "admin.user_manage", "master.reference.manage"}
  }

  lemma CapabilitiesOnly(g: Code, x: Code)
    requires g in GRANTS && GrantsNoPage(g) && x in GRANTS[g]
    ensures !IsPage(x)
  {
  }

  /** No page granted by an entry grants a page itself. */
  lemma PagesGranted(g: Code, q: Code)
    requires g in GRANTS && q in GRANTS[g] && IsPage(q)
    ensures GrantsNoPage(q)
  {
    if GrantsNoPage(g) {
      CapabilitiesOnly(g, q);
    } else {
      MixedEntries(g, q);
    }
  }

  lemma MixedEntries(g: Code, q: Code)
    requires g in GRANTS && !GrantsNoPage(g) && q in GRANTS[g] && IsPage(q)
    ensures g in {"configuration.update", "configuration.edit"} ==> q == "configuration.configure"
    ensures g == "master.reference.manage" ==> q == "master.currencies.create"
    ensures g == "admin.user_manage" ==> q in USER_PAGES - {"admin.user_manage"}
  {
  }

  predicate Lower(c: Code) {
    c != "" && 'a' <= c[0] <= 'z'
  }

  lemma KeysLower(p: Code)
    requires p in GRANTS
    ensures Lower(p) && p in ORDER
  {
  }

  lemma ValuesLower(p: Code, x: Code)
    requires p in GRANTS && x in GRANTS[p]
    ensures Lower(x)
  {
  }

  lemma LowerIsNotBlank(c: Code)
    requires Lower(c)
    ensures !AllSpace(c)
  {
    assert !IsSpace(c[0]);
  }

  lemma OrderIsDistinct()
    ensures forall i, j :: 0 <= i < j < |ORDER| ==> ORDER[i] != ORDER[j]
  {
  }

  lemma OrderAreKeys(p: Code)
    requires p in ORDER
    ensures p in GRANTS
  {
  }

  lemma ExcerptIsValid()
    ensures Valid(AccessExcerpt()) && NoBlankCodes(AccessExcerpt())
  {
    OrderIsDistinct();
    forall p
      ensures p in ORDER <==> p in GRANTS
      ensures p in GRANTS ==> !AllSpace(p)
    {
      if p in GRANTS {
        KeysLower(p);
        LowerIsNotBlank(p);
      }
      if p in ORDER {
        OrderAreKeys(p);
      }
    }
    forall p, x | p in GRANTS && x in GRANTS[p]
      ensures !AllSpace(x)
    {
      ValuesLower(p, x);
      LowerIsNotBlank(x);
    }
  }

  /** The hypothesis on pages holds, although `master.reference.manage` is no page. */
  lemma ExcerptPagesOnlyImply()
    ensures PagesOnlyImply(AccessExcerpt()) && "master.reference.manage" !in AccessExcerpt().pages
  {
  }

  lemma ExcerptClosesInTwoHops()
    ensures ClosesInTwoHops(AccessExcerpt())
  {
    var cat := AccessExcerpt();
    forall g, q, r | q in GrantsOf(cat, g) && q in cat.pages && r in GrantsOf(cat, q) && r in cat.pages
      ensures false
    {
      PagesGranted(g, q);
      CapabilitiesOnly(q, r);
    }
  }

  const EDITING: set<Code> := {
    "configuration.publish", "configuration.activate", "configuration.rollback", "service_order_config.update", "service_order_config.publish"}

  /** Whoever grants a right to edit the configuration is, or grants, the page `configuration.configure`. */
  lemma EditingComesWithConfigure(c: Code, g: Code)
    requires c in EDITING && g in GRANTS && c in GRANTS[g]
    ensures g == "configuration.configure" || "configuration.configure" in GRANTS[g]
  {
  }

  /** The capabilities of the two large configuration entries. */
  lemma EditingCapabilities(r: Code, c: Code)
    requires r in {"configuration.update", "configuration.edit"} && c in GRANTS[r] && !IsPage(c)
    ensures c in EDITING || (r == "configuration.edit" && c in {"service_order_config.create", "service_order_config.delete"})
  {
  }

  lemma PrecededBy(i: nat, j: nat, c: Code)
    requires i < j < |ORDER| && ORDER[i] in GRANTS && GRANTS[ORDER[i]] == [c]
    ensures Preceded(AccessExcerpt(), c, ORDER[j])
  {
    assert GrantsOf(AccessExcerpt(), ORDER[i]) == {c};
  }

  lemma UserCapabilities(c: Code)
    requires c in GRANTS["admin.user_manage"] && !IsPage(c)
    ensures c == "user.read" || c == "user.manage"
  {
  }

  lemma OnlyItselfGrants(g: Code)
    requires g in GRANTS && "master.reference.manage" in GRANTS[g]
    ensures g == "master.reference.manage"
  {
  }

  lemma ReferenceCapabilities(c: Code)
    requires c in GRANTS["master.reference.manage"] && !IsPage(c)
    ensures c == "master.reference.manage"
  {
  }

  /** What `FirstPagesSettled` asks of one entry. */
  ghost predicate SettledAt(r: Code, c: Code, p: Code) {
    Preceded(AccessExcerpt(), c, r) || AlwaysTogether(AccessExcerpt(), c, p)
  }

  lemma UsersSettled(c: Code, p: Code)
    requires c in GRANTS["admin.user_manage"] && !IsPage(c)
    ensures SettledAt("admin.user_manage", c, p)
  {
    UserCapabilities(c);
    assert ORDER[11] == "admin.user_manage";
    if c == "user.read" {
      PrecededBy(5, 11, c);
    } else {
      PrecededBy(6, 11, c);
    }
  }

  lemma ReferenceSettled(c: Code)
    requires c in GRANTS["master.reference.manage"] && !IsPage(c)
    ensures SettledAt("master.reference.manage", c, "master.currencies.create")
  {
    ReferenceCapabilities(c);
    forall g | c in GrantsOf(AccessExcerpt(), g)
      ensures g == "master.reference.manage"
    {
      OnlyItselfGrants(g);
    }
    assert "master.currencies.create" in GrantsOf(AccessExcerpt(), "master.reference.manage");
  }

  lemma EditingSettled(r: Code, c: Code)
    requires c in EDITING
    ensures SettledAt(r, c, "configuration.configure")
  {
    forall g | c in GrantsOf(AccessExcerpt(), g)
      ensures g == "configuration.configure" || "configuration.configure" in GrantsOf(AccessExcerpt(), g)
    {
      EditingComesWithConfigure(c, g);
    }
  }

  lemma CreatingSettled(c: Code, p: Code)
    requires c in {"service_order_config.create", "service_order_config.delete"}
    ensures SettledAt("configuration.edit", c, p)
  {
    assert ORDER[4] == "configuration.edit";
    if c == "service_order_config.create" {
      PrecededBy(1, 4, c);
    } else {
      PrecededBy(3, 4, c);
    }
  }

  lemma EntrySettled(r: Code, c: Code, p: Code)
    requires r in GRANTS && c in GRANTS[r] && !IsPage(c) && p in GRANTS[r] && IsPage(p)
    ensures SettledAt(r, c, p)
  {
    if GrantsNoPage(r) {
      CapabilitiesOnly(r, p);
    } else if r == "admin.user_manage" {
      UsersSettled(c, p);
    } else {
      MixedEntries(r, p);
      if r == "master.reference.manage" {
        ReferenceSettled(c);
      } else {
        EditingCapabilities(r, c);
        if c in EDITING {
          EditingSettled(r, c);
        } else {
          CreatingSettled(c, p);
        }
      }
    }
  }

  lemma ExcerptIsSettled()
    ensures FirstPagesSettled(AccessExcerpt())
  {
    var cat := AccessExcerpt();
    forall r, c, p | c in GrantsOf(cat, r) && c !in cat.pages && p in GrantsOf(cat, r) && p in cat.pages
      ensures Preceded(cat, c, r) || AlwaysTogether(cat, c, p)
    {
      EntrySettled(r, c, p);
      assert SettledAt(r, c, p);
    }
  }

  /** So every stored role, on these entries, is rebuilt once and for all. */
  lemma ExcerptRebuildsOnce(stored: set<Code>)
    ensures Rebuilt(AccessExcerpt(), Rebuilt(AccessExcerpt(), stored)) == Rebuilt(AccessExcerpt(), stored)
  {
    ExcerptIsValid();
    ExcerptPagesOnlyImply();
    ExcerptClosesInTwoHops();
    ExcerptIsSettled();
    RebuildIsIdempotent(AccessExcerpt(), stored);
  }

  // ---------------------------------------------------------------------------------------
  // Compiling twice gains a page
  // ---------------------------------------------------------------------------------------

  /** Exactly what `configuration.configure` grants. */
  const CONFIGURING: set<Code> := {
    "configuration.read", "configuration.compare", "configuration.publish", "configuration.activate", "configuration.rollback",
    "service_order_config.view", "service_order_config.update", "service_order_config.publish"}

  lemma ConfiguringGrants(c: Code)
    requires c in CONFIGURING
    ensures c !in GRANTS && !IsPage(c) && !AllSpace(c)
  {
    assert Lower(c);
    LowerIsNotBlank(c);
  }

  lemma ConfiguringCovers()
    ensures Covered(AccessExcerpt(), NonBlank(CONFIGURING)) == CONFIGURING
  {
    var cat := AccessExcerpt();
    forall c | c in CONFIGURING
      ensures !AllSpace(c) && GrantsOf(cat, c) == {}
    {
      ConfiguringGrants(c);
    }
    assert NonBlank(CONFIGURING) == CONFIGURING;
    assert Declared(cat, CONFIGURING) == {};
    assert Declared(cat, {}) == {};
  }

  /** Three entries grant the right to publish; the first two also need `configuration.configure`. */
  lemma PublishingPages(g: Code)
    requires g in GRANTS && "configuration.publish" in GRANTS[g]
    ensures g in {"configuration.update", "configuration.edit", "configuration.configure"}
  {
  }

  const CONFIGURE: Code := "configuration.configure"
  const UPDATE: Code := "configuration.update"
  const PUBLISH: Code := "configuration.publish"

  lemma ConfigureGrants()
    ensures GrantsOf(AccessExcerpt(), CONFIGURE) == CONFIGURING
  {
    var g := GRANTS[CONFIGURE];
    assert Elements(g) == {g[0], g[1], g[2], g[3], g[4], g[5], g[6], g[7]};
  }

  lemma UpdateGrants()
    ensures CONFIGURE in GrantsOf(AccessExcerpt(), UPDATE) && GrantsOf(AccessExcerpt(), UPDATE) <= CONFIGURING + {CONFIGURE}
  {
    assert GRANTS[UPDATE][0] == CONFIGURE;
  }

  lemma EditGrants()
    ensures CONFIGURE in GrantsOf(AccessExcerpt(), "configuration.edit")
  {
    assert GRANTS["configuration.edit"][0] == CONFIGURE;
  }

  lemma PagesAreNoCapabilities()
    ensures CONFIGURE !in CONFIGURING && UPDATE !in CONFIGURING && CONFIGURE != UPDATE
  {
  }

  lemma PublishIsCapability()
    ensures PUBLISH in CONFIGURING && PUBLISH !in AccessExcerpt().pages
  {
    ConfiguringGrants(PUBLISH);
  }

  /** The page chosen for the right to publish is one of the three, and its grants are covered. */
  lemma PublishingPage(covered: set<Code>) returns (page: Code)
    requires CONFIGURING <= covered
    ensures PageFor(AccessExcerpt(), PUBLISH, covered) == Some(page) && GrantsOf(AccessExcerpt(), page) <= covered
    ensures page == CONFIGURE || page == UPDATE || page == "configuration.edit"
  {
    var cat := AccessExcerpt();
    var listed := PagesGranting(cat, ORDER, PUBLISH);
    ConfigureGrants();
    PublishIsCapability();
    ListedInOrder(cat, ORDER, PUBLISH);
    FirstCoveredFits(cat, listed, covered);
    assert ORDER[12] == CONFIGURE;
    assert CONFIGURE in listed;
    page := PageFor(cat, PUBLISH, covered).value;
    PublishingPages(page);
  }

  lemma ChosenIsImplied(covered: set<Code>, page: Code)
    requires CONFIGURING <= covered && PageFor(AccessExcerpt(), PUBLISH, covered) == Some(page)
    ensures page in Implied(AccessExcerpt(), covered)
  {
    PublishIsCapability();
    assert PUBLISH in covered - AccessExcerpt().pages;
  }

  lemma ConfigureIsImplied()
    ensures CONFIGURE in Implied(AccessExcerpt(), CONFIGURING) && UPDATE !in Implied(AccessExcerpt(), CONFIGURING)
  {
    PagesAreNoCapabilities();
    UpdateGrants();
    EditGrants();
    var page := PublishingPage(CONFIGURING);
    ChosenIsImplied(CONFIGURING, page);
    if UPDATE in Implied(AccessExcerpt(), CONFIGURING) {
      ImpliedPage(AccessExcerpt(), CONFIGURING, UPDATE);
    }
  }

  /** Once all grants of `configuration.update` are covered, it comes first. */
  lemma UpdateComesFirst(covered: set<Code>, page: Code)
    requires GrantsOf(AccessExcerpt(), UPDATE) <= covered && PageFor(AccessExcerpt(), PUBLISH, covered) == Some(page)
    requires page == CONFIGURE || page == UPDATE || page == "configuration.edit"
    ensures page == UPDATE
  {
    OrderIsDistinct();
    assert GRANTS[UPDATE][1] == PUBLISH;
    assert ORDER[2] == UPDATE && ORDER[4] == "configuration.edit" && ORDER[12] == CONFIGURE;
    FirstIsEarliest(AccessExcerpt(), ORDER, PUBLISH, covered, 2, 4);
    FirstIsEarliest(AccessExcerpt(), ORDER, PUBLISH, covered, 2, 12);
  }

  lemma UpdateIsImplied(covered: set<Code>)
    requires CONFIGURING + {CONFIGURE} <= covered
    ensures UPDATE in Implied(AccessExcerpt(), covered)
  {
    UpdateGrants();
    var page := PublishingPage(covered);
    UpdateComesFirst(covered, page);
    ChosenIsImplied(covered, page);
  }

  /**
   The eight capabilities of `configuration.configure` compile to that page, and compiling the
   result adds the page `configuration.update`.
   */
  lemma CompileGainsAPage()
    ensures
      var once := Compile(AccessExcerpt(), CONFIGURING);
      UPDATE !in once && UPDATE in Compile(AccessExcerpt(), once)
  {
    var cat, once := AccessExcerpt(), Compile(AccessExcerpt(), CONFIGURING);
    ConfiguringCovers();
    PagesAreNoCapabilities();
    ConfigureIsImplied();
    ExcerptIsValid();
    CompiledNotBlank(cat, CONFIGURING);
    UpdateIsImplied(Covered(cat, NonBlank(once)));
  }
}
