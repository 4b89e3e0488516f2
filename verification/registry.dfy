/** The screen registry (`PageManager`): a base view built eagerly in the
    constructor and one memoised slot per screen, filled on first access by
    a `??=` getter. Object identity is a reference drawn from an allocation
    counter `next` that stands for the JavaScript heap; the counter is
    threaded through every operation that can construct an object. */
module Registry {
  import opened Js

  datatype ScreenKind = BaseScreen | LoginScreen | SignupScreen | NavScreen | ProductsScreen

  /** A constructed screen object: its identity, what it is, and the page it
      was constructed with. Screen objects hold no business data. */
  datatype ScreenObject = ScreenObject(ref: nat, kind: ScreenKind, page: nat)

  /** The registry: the page it was constructed with, the eager base view
      and the filled lazy slots. */
  datatype PageManager = PageManager(page: nat, basePage: ScreenObject, slots: map<ScreenKind, ScreenObject>)

  /** The result of reading a getter: the registry afterwards, the object
      handed out and the allocation counter afterwards. */
  datatype Access = Access(manager: PageManager, screen: ScreenObject, next: nat)

  /** Every object the registry holds is of the kind of its slot and bound
      to the registry's page. */
  predicate Bound(m: PageManager) {
    && m.basePage.kind == BaseScreen
    && m.basePage.page == m.page
    && BaseScreen !in m.slots
    && (forall k :: k in m.slots ==> m.slots[k].kind == k && m.slots[k].page == m.page)
  }

  /** Besides being bound, every object the registry holds is already
      allocated and distinct from the others. */
  ghost predicate Valid(m: PageManager, next: nat) {
    && Bound(m)
    && m.basePage.ref < next
    && (forall k :: k in m.slots ==> m.slots[k].ref < next)
    && (forall k :: k in m.slots ==> m.slots[k].ref != m.basePage.ref)
    && (forall k, k' :: k in m.slots && k' in m.slots && k != k' ==> m.slots[k].ref != m.slots[k'].ref)
  }

  /** `new PageManager(page)`: constructs the base view, and only it. */
  function New(page: nat, next: nat): (a: Access)
    ensures a.screen == a.manager.basePage
    ensures a.manager.page == page && a.screen.page == page && a.screen.kind == BaseScreen
    ensures a.screen.ref == next && a.next == next + 1
    ensures a.manager.slots == map[]
    ensures Valid(a.manager, a.next)
  {
    var base := ScreenObject(next, BaseScreen, page);
    Access(PageManager(page, base, map[]), base, next + 1)
  }

  /** A `??=` getter for a lazy slot: the stored object when the slot is
      filled, otherwise a new object bound to the registry's page, which is
      stored. */
  function GetOrCreate(m: PageManager, kind: ScreenKind, next: nat): (a: Access)
    requires kind != BaseScreen && Bound(m)
    ensures Bound(a.manager)
    ensures a.screen.kind == kind && a.screen.page == m.page
    ensures kind in a.manager.slots && a.manager.slots[kind] == a.screen
    // a filled slot hands out its object and constructs nothing
    ensures kind in m.slots ==> a.screen == m.slots[kind] && a.manager == m && a.next == next
    // an empty slot gets exactly one new object
    ensures kind !in m.slots ==> a.screen.ref == next && a.next == next + 1
    // nothing else changes
    ensures a.manager.page == m.page && a.manager.basePage == m.basePage
    ensures a.manager.slots.Keys == m.slots.Keys + {kind}
    ensures forall k :: k in m.slots ==> a.manager.slots[k] == m.slots[k]
  {
    if kind in m.slots then Access(m, m.slots[kind], next)
    else
      var s := ScreenObject(next, kind, m.page);
      Access(m.(slots := m.slots[kind := s]), s, next + 1)
  }

  /** Reading a getter twice: the second read hands out the same object and
      leaves the registry and the heap as the first read left them. */
  lemma SecondAccessIdentical(m: PageManager, kind: ScreenKind, next: nat)
    requires kind != BaseScreen && Bound(m)
    ensures var a := GetOrCreate(m, kind, next);
            GetOrCreate(a.manager, kind, a.next) == a
  {
  }

  /** A getter read keeps the registry well formed: a new object gets a
      reference no object the registry holds has. */
  lemma GetOrCreateKeepsValid(m: PageManager, kind: ScreenKind, next: nat)
    requires kind != BaseScreen && Bound(m) && Valid(m, next)
    ensures Valid(GetOrCreate(m, kind, next).manager, GetOrCreate(m, kind, next).next)
    ensures kind !in m.slots ==>
              && GetOrCreate(m, kind, next).screen.ref != m.basePage.ref
              && forall k :: k in m.slots ==> m.slots[k].ref != GetOrCreate(m, kind, next).screen.ref
  {
  }

  /* ---------------------------------------------------------------- */
  /*  Property access by name                                          */
  /* ---------------------------------------------------------------- */

  /** The getters declared by the registry as written: `loginPage`,
      `signupPage` and `nav`. */
  function DeclaredGetter(name: string): (kind: Option<ScreenKind>)
    ensures kind.Some? ==> kind.value != BaseScreen && kind.value != ProductsScreen
    ensures kind.Some? <==> name in {"loginPage", "signupPage", "nav"}
  {
    if name == "loginPage" then Some(LoginScreen)
    else if name == "signupPage" then Some(SignupScreen)
    else if name == "nav" then Some(NavScreen)
    else None
  }

  /** The getters the step definitions rely on: the declared ones and a
      `productsPage` slot memoised like the others. */
  function IntendedGetter(name: string): (kind: Option<ScreenKind>)
    ensures kind.Some? ==> kind.value != BaseScreen
    ensures kind.Some? <==> name in {"loginPage", "signupPage", "nav", "productsPage"}
    ensures name != "productsPage" ==> kind == DeclaredGetter(name)
  {
    if name == "productsPage" then Some(ProductsScreen) else DeclaredGetter(name)
  }

  /** The getters of the registry: the declared ones, and with
      `productsSlot` also the `productsPage` one. */
  function Getter(name: string, productsSlot: bool): Option<ScreenKind> {
    if productsSlot then IntendedGetter(name) else DeclaredGetter(name)
  }

  /** The field backing each lazy getter: `_loginPage`, `_signupPage`,
      `_nav`, and `_productsPage` when the products slot is present.
      TypeScript's `private` is not enforced at run time, so each is a
      readable property that holds the memoised object once its getter has
      run, and `undefined` before. */
  function BackingField(name: string, productsSlot: bool): (kind: Option<ScreenKind>)
    ensures kind.Some? ==> kind.value != BaseScreen
    ensures kind.Some? <==> name in {"_loginPage", "_signupPage", "_nav"} || (productsSlot && name == "_productsPage")
  {
    if name == "_loginPage" then Some(LoginScreen)
    else if name == "_signupPage" then Some(SignupScreen)
    else if name == "_nav" then Some(NavScreen)
    else if productsSlot && name == "_productsPage" then Some(ProductsScreen)
    else None
  }

  /** Each getter stores its object in the field named after it with a
      leading underscore, and no other field backs that screen. */
  lemma BackingFieldOfGetter(name: string, productsSlot: bool)
    ensures Getter(name, productsSlot).Some? ==> BackingField("_" + name, productsSlot) == Getter(name, productsSlot)
    ensures BackingField(name, productsSlot).Some? ==>
              |name| > 0 && name[0] == '_' && Getter(name[1..], productsSlot) == BackingField(name, productsSlot)
  {
    if BackingField(name, productsSlot).Some? {
      assert name[1..] in {"loginPage", "signupPage", "nav", "productsPage"};
    }
  }

  /** What reading a property of the registry yields: `undefined`, the page
      it was constructed with, a screen object, or a member inherited from
      the prototype chain, which the model does not evaluate. */
  datatype Value = Undefined | PageHandle(page: nat) | Screen(screen: ScreenObject) | Inherited(name: string)

  /** The value read, the registry afterwards and the allocation counter
      afterwards. */
  datatype Property = Property(value: Value, manager: PageManager, next: nat)

  /** Reading property `name`: the `basePage` and `page` fields, the backing
      field of a lazy slot, a `??=` getter, an inherited member, or nothing. */
  function Lookup(m: PageManager, name: string, next: nat, productsSlot: bool): (r: Property)
    requires Bound(m)
    ensures Bound(r.manager)
    ensures r.value.Screen? ==> r.value.screen.page == m.page
  {
    if name == "basePage" then Property(Screen(m.basePage), m, next)
    else if name == "page" then Property(PageHandle(m.page), m, next)
    else match BackingField(name, productsSlot)
      case Some(kind) => Property(if kind in m.slots then Screen(m.slots[kind]) else Undefined, m, next)
      case None =>
        match Getter(name, productsSlot)
        case Some(kind) =>
          var a := GetOrCreate(m, kind, next);
          Property(Screen(a.screen), a.manager, a.next)
        case None => Property(if PrototypeMember(name) then Inherited(name) else Undefined, m, next)
  }

  /** Reading property `name` of the registry as written. `page` is the page
      the constructor received; a backing field holds its screen's object
      once the getter has run; a declared getter hands out its memoised
      object; a name on the prototype chain reads an inherited member; every
      other name reads `undefined`, and calling a method on that value
      throws. Only a getter changes the registry or the heap. */
  function Read(m: PageManager, name: string, next: nat): (r: Property)
    requires Bound(m)
    ensures name == "basePage" ==> r == Property(Screen(m.basePage), m, next)
    ensures name == "page" ==> r == Property(PageHandle(m.page), m, next)
    ensures DeclaredGetter(name).None? ==> r.manager == m && r.next == next
    ensures DeclaredGetter(name).Some? ==>
              var kind := DeclaredGetter(name).value;
              && kind in r.manager.slots && r.value == Screen(r.manager.slots[kind])
              && r.value.screen.kind == kind && r.value.screen.page == m.page
    ensures BackingField(name, false).Some? ==>
              var kind := BackingField(name, false).value;
              r.value == (if kind in m.slots then Screen(m.slots[kind]) else Undefined)
    ensures r.value.Inherited? <==> PrototypeMember(name) && name != "basePage" && name != "page"
                                    && BackingField(name, false).None? && DeclaredGetter(name).None?
    ensures r.value == Undefined <==>
              || (BackingField(name, false).Some? && BackingField(name, false).value !in m.slots)
              || (name !in {"basePage", "page"} && BackingField(name, false).None?
                  && DeclaredGetter(name).None? && !PrototypeMember(name))
  {
    Lookup(m, name, next, false)
  }

  /** Reading property `name` of the registry with the products slot and its
      backing field added. */
  function ReadIntended(m: PageManager, name: string, next: nat): (r: Property)
    requires Bound(m)
    ensures name != "productsPage" && name != "_productsPage" ==> r == Read(m, name, next)
    ensures name == "productsPage" ==>
              && ProductsScreen in r.manager.slots && r.value == Screen(r.manager.slots[ProductsScreen])
              && r.value.screen.kind == ProductsScreen && r.value.screen.page == m.page
    ensures name == "_productsPage" ==>
              r == Property(if ProductsScreen in m.slots then Screen(m.slots[ProductsScreen]) else Undefined, m, next)
  {
    Lookup(m, name, next, true)
  }

  /** A property read, as written or with the products slot, keeps the
      registry well formed. */
  lemma ReadKeepsValid(m: PageManager, name: string, next: nat)
    requires Bound(m) && Valid(m, next)
    ensures Valid(Read(m, name, next).manager, Read(m, name, next).next)
    ensures Valid(ReadIntended(m, name, next).manager, ReadIntended(m, name, next).next)
  {
    if name != "basePage" && name != "page" && BackingField(name, true).None? && IntendedGetter(name).Some? {
      GetOrCreateKeepsValid(m, IntendedGetter(name).value, next);
    }
  }

  /** After a getter has run, its backing field reads the object the getter
      handed out, and a second read of the getter hands out that object again
      without changing anything. */
  lemma GetterFillsBackingField(m: PageManager, name: string, next: nat, productsSlot: bool)
    requires Bound(m) && Getter(name, productsSlot).Some?
    ensures var r := Lookup(m, name, next, productsSlot);
            && Lookup(r.manager, "_" + name, r.next, productsSlot) == Property(r.value, r.manager, r.next)
            && Lookup(r.manager, name, r.next, productsSlot) == r
  {
    BackingFieldOfGetter(name, productsSlot);
    assert name != "basePage" && name != "page" && BackingField(name, productsSlot).None?;
  }

  /** As written, `pages.productsPage` is `undefined` on every registry and
      reading it changes nothing, so a step that calls a method on it throws. */
  lemma ProductsPageUndefined(m: PageManager, next: nat)
    requires Bound(m)
    ensures Read(m, "productsPage", next) == Property(Undefined, m, next)
  {
    assert !PrototypeMember("productsPage");
  }

  /** With the products slot, `productsPage` is a memoised getter like the
      others: bound to the registry's page, constructed once, then the same
      object on every later read, leaving the other slots alone. */
  lemma ProductsPageIntended(m: PageManager, next: nat)
    requires Bound(m)
    ensures var r := ReadIntended(m, "productsPage", next);
            && r.value.Screen?
            && r.value.screen.kind == ProductsScreen
            && r.value.screen.page == m.page
            && ReadIntended(r.manager, "productsPage", r.next) == r
            && (forall k :: k in m.slots ==> k in r.manager.slots && r.manager.slots[k] == m.slots[k])
  {
  }

  /* ---------------------------------------------------------------- */
  /*  Any sequence of getter reads                                     */
  /* ---------------------------------------------------------------- */

  /** The registry, the objects handed out in order, and the heap after a
      sequence of getter reads. */
  datatype Session = Session(manager: PageManager, handed: seq<ScreenObject>, next: nat)

  predicate LazyKinds(kinds: seq<ScreenKind>) {
    forall i :: 0 <= i < |kinds| ==> kinds[i] != BaseScreen
  }

  function Replay(m: PageManager, kinds: seq<ScreenKind>, next: nat): (s: Session)
    requires LazyKinds(kinds) && Bound(m)
    ensures Bound(s.manager)
    ensures |s.handed| == |kinds|
    decreases |kinds|
  {
    if |kinds| == 0 then Session(m, [], next)
    else
      var a := GetOrCreate(m, kinds[0], next);
      var rest := Replay(a.manager, kinds[1..], a.next);
      Session(rest.manager, [a.screen] + rest.handed, rest.next)
  }

  /** Any sequence of getter reads keeps the registry well formed. */
  lemma {:induction false} ReplayKeepsValid(m: PageManager, kinds: seq<ScreenKind>, next: nat)
    requires LazyKinds(kinds) && Bound(m) && Valid(m, next)
    ensures Valid(Replay(m, kinds, next).manager, Replay(m, kinds, next).next)
    decreases |kinds|
  {
    if |kinds| > 0 {
      var a := GetOrCreate(m, kinds[0], next);
      GetOrCreateKeepsValid(m, kinds[0], next);
      ReplayKeepsValid(a.manager, kinds[1..], a.next);
    }
  }

  function KindsOf(kinds: seq<ScreenKind>): set<ScreenKind> {
    set i | 0 <= i < |kinds| :: kinds[i]
  }

  lemma KindsOfCons(kinds: seq<ScreenKind>)
    requires |kinds| > 0
    ensures KindsOf(kinds) == {kinds[0]} + KindsOf(kinds[1..])
  {
    var tail := kinds[1..];
    forall k | k in KindsOf(kinds) ensures k in {kinds[0]} + KindsOf(tail) {
      var i :| 0 <= i < |kinds| && kinds[i] == k;
      if i > 0 { assert tail[i - 1] == k; }
    }
    forall k | k in KindsOf(tail) ensures k in KindsOf(kinds) {
      var i :| 0 <= i < |tail| && tail[i] == k;
      assert kinds[i + 1] == k;
    }
  }

  /** Over any sequence of reads, the registry keeps its page and base view,
      fills exactly the slots read, and never replaces a filled slot. */
  lemma {:induction false} ReplayKeepsSlots(m: PageManager, kinds: seq<ScreenKind>, next: nat)
    requires LazyKinds(kinds) && Bound(m)
    ensures Replay(m, kinds, next).manager.page == m.page
    ensures Replay(m, kinds, next).manager.basePage == m.basePage
    ensures Replay(m, kinds, next).manager.slots.Keys == m.slots.Keys + KindsOf(kinds)
    ensures forall k :: k in m.slots ==> Replay(m, kinds, next).manager.slots[k] == m.slots[k]
    decreases |kinds|
  {
    if |kinds| > 0 {
      var a := GetOrCreate(m, kinds[0], next);
      ReplayKeepsSlots(a.manager, kinds[1..], a.next);
      KindsOfCons(kinds);
      assert Replay(m, kinds, next).manager == Replay(a.manager, kinds[1..], a.next).manager;
    } else {
      assert KindsOf(kinds) == {};
    }
  }

  /** The object handed out by a later read is the one the replay after the
      first read hands out. */
  lemma LaterHanded(m: PageManager, kinds: seq<ScreenKind>, next: nat, i: nat)
    requires LazyKinds(kinds) && Bound(m) && 0 < i < |kinds|
    ensures var a := GetOrCreate(m, kinds[0], next);
            Replay(m, kinds, next).handed[i] == Replay(a.manager, kinds[1..], a.next).handed[i - 1]
  {
    var tail := kinds[1..];
    assert LazyKinds(tail) by {
      forall k | 0 <= k < |tail| ensures tail[k] != BaseScreen {
        assert tail[k] == kinds[k + 1];
      }
    }
    var a := GetOrCreate(m, kinds[0], next);
    var rest := Replay(a.manager, tail, a.next);
    assert Replay(m, kinds, next).handed == [a.screen] + rest.handed;
  }

  /** Over any sequence of reads, every object handed out is the one its slot
      finally holds, of the kind read and bound to the registry's page. */
  lemma {:induction false} ReplayHandsSlotObjects(m: PageManager, kinds: seq<ScreenKind>, next: nat)
    requires LazyKinds(kinds) && Bound(m)
    ensures forall i :: 0 <= i < |kinds| ==>
              && kinds[i] in Replay(m, kinds, next).manager.slots
              && Replay(m, kinds, next).handed[i] == Replay(m, kinds, next).manager.slots[kinds[i]]
    ensures forall i :: 0 <= i < |kinds| ==>
              Replay(m, kinds, next).handed[i].page == m.page && Replay(m, kinds, next).handed[i].kind == kinds[i]
    decreases |kinds|
  {
    if |kinds| > 0 {
      var a := GetOrCreate(m, kinds[0], next);
      var tail := kinds[1..];
      ReplayHandsSlotObjects(a.manager, tail, a.next);
      ReplayKeepsSlots(a.manager, tail, a.next);
      var s := Replay(m, kinds, next);
      var rest := Replay(a.manager, tail, a.next);
      assert s.handed[0] == a.screen && s.manager == rest.manager;
      forall i | 0 < i < |kinds|
        ensures kinds[i] in s.manager.slots && s.handed[i] == s.manager.slots[kinds[i]]
        ensures s.handed[i].page == m.page && s.handed[i].kind == kinds[i]
      {
        LaterHanded(m, kinds, next, i);
        assert kinds[i] == tail[i - 1];
      }
    }
  }

  /** Over any sequence of reads: every object handed out is the one its slot
      finally holds (so two reads of the same getter give the same object),
      every object is bound to the registry's page, and slots filled before
      are never replaced. */
  lemma ReplayMemoises(m: PageManager, kinds: seq<ScreenKind>, next: nat)
    requires LazyKinds(kinds) && Bound(m)
    ensures var s := Replay(m, kinds, next);
            && s.manager.page == m.page && s.manager.basePage == m.basePage
            && s.manager.slots.Keys == m.slots.Keys + KindsOf(kinds)
            && (forall k :: k in m.slots ==> s.manager.slots[k] == m.slots[k])
            && (forall i :: 0 <= i < |kinds| ==> s.handed[i] == s.manager.slots[kinds[i]])
            && (forall i :: 0 <= i < |kinds| ==> s.handed[i].page == m.page && s.handed[i].kind == kinds[i])
  {
    ReplayKeepsSlots(m, kinds, next);
    ReplayHandsSlotObjects(m, kinds, next);
  }

  lemma NewKindsStep(K: set<ScreenKind>, k: ScreenKind, T: set<ScreenKind>)
    ensures |({k} + T) - K| == (if k in K then 0 else 1) + |T - (K + {k})|
  {
    var added := T - (K + {k});
    if k in K {
      assert ({k} + T) - K == added;
    } else {
      assert ({k} + T) - K == {k} + added;
      assert k !in added;
    }
  }

  /** Exactly one object is constructed for each screen read that had no
      object yet, and none for the others. */
  lemma {:induction false} ReplayConstructsOncePerScreen(m: PageManager, kinds: seq<ScreenKind>, next: nat)
    requires LazyKinds(kinds) && Bound(m)
    ensures Replay(m, kinds, next).next == next + |KindsOf(kinds) - m.slots.Keys|
    decreases |kinds|
  {
    if |kinds| > 0 {
      var a := GetOrCreate(m, kinds[0], next);
      var tail := kinds[1..];
      ReplayConstructsOncePerScreen(a.manager, tail, a.next);
      KindsOfCons(kinds);
      NewKindsStep(m.slots.Keys, kinds[0], KindsOf(tail));
      assert Replay(m, kinds, next).next == Replay(a.manager, tail, a.next).next;
    } else {
      assert KindsOf(kinds) == {};
    }
  }

  /** Reference equality of repeated reads: within one registry, two reads
      of the same screen, however far apart, hand out the identical object. */
  lemma SameScreenSameObject(m: PageManager, kinds: seq<ScreenKind>, next: nat, i: nat, j: nat)
    requires LazyKinds(kinds) && Bound(m)
    requires i < |kinds| && j < |kinds| && kinds[i] == kinds[j]
    ensures Replay(m, kinds, next).handed[i] == Replay(m, kinds, next).handed[j]
  {
    ReplayMemoises(m, kinds, next);
  }
}
