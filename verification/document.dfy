/**
  The document store of the builder: the screens of the app being built, each
  with an ordered list of components, plus the active screen, the selected
  component and the preview flag. Every mutation is a pure state-to-state
  function, and edits to components only ever touch the screens whose id is
  the active screen id.
 */
module Document {
  import opened Js

  datatype ComponentType =
    | Text | Button | Image | Container | ProductGrid | Chart | Slider | BottomNav
    | Video | Webview | Spacer | ProductDetail | Toolbar | NewsGrid | NewsDetail

  /** `children` is reserved for nesting; no operation reads it. */
  datatype Component = Component(id: string, kind: ComponentType, props: Record, children: Option<seq<Component>>)

  datatype Screen = Screen(id: string, name: string, components: seq<Component>)

  datatype AppState = AppState(
    screens: seq<Screen>,
    activeScreenId: string,
    selectedId: Option<string>,
    isPreviewMode: bool)

  /** The conventional first screen, used as the fallback navigation target. */
  const HomeScreenId: string := "screen-home"

  /** Prefix of the ids `addScreen` generates. */
  const ScreenIdPrefix: string := "screen-"

  /** The second screen of the initial document. */
  const InitialDetailScreenId: string := "screen-kg4wjodkwjdboashsp2p0r"

  const InitialBanner: Component := Component("mfas11fu5uact7n9v9optq", Image,
    map["src" := Str("https://lelogama.go-jek.com/post_featured_image/Gojek_KV-GOKANTOR-NON-PROMO_1456x818.jpg")], None)

  const InitialGrid: Component := Component("2qr991cu60tahw7ljjaek", ProductGrid,
    map["bind_image" := Str("Image"), "bind_title" := Str("Title"), "bind_subtitle" := Str("Price"),
        "itemActionType" := Str("navigate"), "itemTargetScreenId" := Str(InitialDetailScreenId)], None)

  const InitialToolbar: Component := Component("9kygpvyhtb8q37m0skuua8", Toolbar, map["title" := Str("detail")], None)

  const InitialDetail: Component := Component("dqd93uka0ehxp79cjv91mc", ProductDetail,
    map["dataBind_title" := Str("Title"), "dataBind_price" := Str("Price"),
        "dataBind_description" := Str("Description"), "dataBind_image" := Str("Image"),
        "whatsappNumber" := Str("6282246197193")], None)

  /** The document the store starts with: a home screen with a banner image and
      a product grid that navigates to a second, detail screen. */
  const InitialApp: AppState := AppState(
    [ Screen(HomeScreenId, "Home", [InitialBanner, InitialGrid]),
      Screen(InitialDetailScreenId, "page", [InitialToolbar, InitialDetail]) ],
    HomeScreenId, None, false)

  // ---------------------------------------------------------------------------
  // Reading the active screen

  /** Some screen carries the given id. */
  predicate HasScreen(screens: seq<Screen>, id: string) {
    exists i :: 0 <= i < |screens| && screens[i].id == id
  }

  /** `i` is the first position holding a screen with the given id. */
  predicate FirstScreenAt(screens: seq<Screen>, id: string, i: int) {
    0 <= i < |screens| && screens[i].id == id && forall j :: 0 <= j < i ==> screens[j].id != id
  }

  /** `screens.findIndex(s => s.id === id)` from position `from` on. */
  function FindScreenFrom(screens: seq<Screen>, id: string, from: nat): (r: Option<nat>)
    ensures r.Some? ==> from <= r.value < |screens| && screens[r.value].id == id
    ensures r.Some? ==> forall j :: from <= j < r.value ==> screens[j].id != id
    ensures r.None? ==> forall j :: from <= j < |screens| ==> screens[j].id != id
    decreases |screens| - from
  {
    if from >= |screens| then None
    else if screens[from].id == id then Some(from)
    else FindScreenFrom(screens, id, from + 1)
  }

  function FindScreen(screens: seq<Screen>, id: string): (r: Option<nat>)
    ensures r.None? <==> !HasScreen(screens, id)
    ensures r.Some? ==> FirstScreenAt(screens, id, r.value)
  {
    FindScreenFrom(screens, id, 0)
  }

  /** The components the editor shows: those of the first screen whose id is
      the active id, or none at all when the active id is dangling. */
  function ActiveComponents(st: AppState): (r: seq<Component>)
    ensures !HasScreen(st.screens, st.activeScreenId) ==> r == []
    ensures forall i :: FirstScreenAt(st.screens, st.activeScreenId, i) ==> r == st.screens[i].components
  {
    match FindScreen(st.screens, st.activeScreenId)
    case None => []
    case Some(i) => st.screens[i].components
  }

  /** An invariant the store does not enforce: the active id names an
      existing screen. */
  predicate ActiveExists(st: AppState) {
    HasScreen(st.screens, st.activeScreenId)
  }

  // ---------------------------------------------------------------------------
  // Screen-level operations

  function SetPreviewMode(st: AppState, enabled: bool): (r: AppState)
    ensures r.isPreviewMode == enabled && r.selectedId == None
    ensures r.screens == st.screens && r.activeScreenId == st.activeScreenId
  {
    st.(isPreviewMode := enabled, selectedId := None)
  }

  /** Appends an empty screen `"screen-" + uuid`, activates it and clears the
      selection. The uuid stands for the store's random id generator. */
  function AddScreen(st: AppState, name: string, uuid: string): (r: AppState)
    ensures |r.screens| == |st.screens| + 1
    ensures r.screens[..|st.screens|] == st.screens
    ensures r.screens[|st.screens|] == Screen(ScreenIdPrefix + uuid, name, [])
    ensures r.activeScreenId == ScreenIdPrefix + uuid && ActiveExists(r)
    ensures r.selectedId == None && r.isPreviewMode == st.isPreviewMode
  {
    var newId := ScreenIdPrefix + uuid;
    var r := st.(screens := st.screens + [Screen(newId, name, [])], activeScreenId := newId, selectedId := None);
    assert r.screens[|st.screens|].id == newId;
    r
  }

  /** With a fresh id the new screen is the one shown, and it is empty. */
  lemma AddScreenShowsEmptyScreen(st: AppState, name: string, uuid: string)
    requires !HasScreen(st.screens, ScreenIdPrefix + uuid)
    ensures ActiveComponents(AddScreen(st, name, uuid)) == []
    ensures FirstScreenAt(AddScreen(st, name, uuid).screens, ScreenIdPrefix + uuid, |st.screens|)
  {
    var r := AddScreen(st, name, uuid);
    assert FirstScreenAt(r.screens, r.activeScreenId, |st.screens|);
  }

  /** No existence check: the id is stored as given and the selection cleared. */
  function SetActiveScreen(st: AppState, id: string): (r: AppState)
    ensures r.activeScreenId == id && r.selectedId == None
    ensures r.screens == st.screens && r.isPreviewMode == st.isPreviewMode
    ensures ActiveExists(r) <==> HasScreen(st.screens, id)
  {
    st.(activeScreenId := id, selectedId := None)
  }

  /** Activating an id no screen carries leaves the editor showing nothing. */
  lemma DanglingActiveShowsNothing(st: AppState, id: string)
    requires !HasScreen(st.screens, id)
    ensures !ActiveExists(SetActiveScreen(st, id))
    ensures ActiveComponents(SetActiveScreen(st, id)) == []
  {
  }

  /** No validation: any id, or none, becomes the selection. */
  function SelectComponent(st: AppState, id: Option<string>): (r: AppState)
    ensures r.selectedId == id
    ensures r.screens == st.screens && r.activeScreenId == st.activeScreenId && r.isPreviewMode == st.isPreviewMode
  {
    st.(selectedId := id)
  }

  /** Replaces the whole document; the first screen (or the home id when the
      list is empty) becomes active and the selection is cleared. */
  function LoadTemplate(st: AppState, screens: seq<Screen>): (r: AppState)
    ensures r.screens == screens
    ensures |screens| > 0 ==> r.activeScreenId == screens[0].id && ActiveExists(r)
    ensures |screens| == 0 ==> r.activeScreenId == HomeScreenId && !ActiveExists(r)
    ensures r.selectedId == None && r.isPreviewMode == st.isPreviewMode
  {
    st.(screens := screens,
        activeScreenId := if |screens| > 0 then screens[0].id else HomeScreenId,
        selectedId := None)
  }

  /** After a load the editor shows the first screen of the template. */
  lemma LoadTemplateShowsFirstScreen(st: AppState, screens: seq<Screen>)
    requires |screens| > 0
    ensures ActiveComponents(LoadTemplate(st, screens)) == screens[0].components
  {
    assert FirstScreenAt(screens, screens[0].id, 0);
  }

  // ---------------------------------------------------------------------------
  // Component-level operations: each maps over the screens and edits those
  // whose id is the active id.

  /** The four ways a component operation rewrites a screen's list. */
  datatype Edit =
    | Append(c: Component)
    | Update(id: string, patch: Record)
    | Remove(id: string)
    | Replace(cs: seq<Component>)

  function ApplyEdit(e: Edit, cs: seq<Component>): seq<Component> {
    match e
    case Append(c) => cs + [c]
    case Update(id, patch) => UpdateIn(cs, id, patch)
    case Remove(id) => RemoveId(cs, id)
    case Replace(cs') => cs'
  }

  function EditActive(st: AppState, e: Edit): (r: AppState)
    ensures |r.screens| == |st.screens|
    ensures forall i :: 0 <= i < |st.screens| && st.screens[i].id == st.activeScreenId ==>
              r.screens[i] == st.screens[i].(components := ApplyEdit(e, st.screens[i].components))
    ensures forall i :: 0 <= i < |st.screens| && st.screens[i].id != st.activeScreenId ==>
              r.screens[i] == st.screens[i]
    ensures r.activeScreenId == st.activeScreenId && r.selectedId == st.selectedId
    ensures r.isPreviewMode == st.isPreviewMode
  {
    st.(screens := seq(|st.screens|, i requires 0 <= i < |st.screens| =>
          if st.screens[i].id == st.activeScreenId
          then st.screens[i].(components := ApplyEdit(e, st.screens[i].components))
          else st.screens[i]))
  }

  /** Editing the active screens changes the shown list by the edit alone. */
  lemma EditActiveShows(st: AppState, e: Edit)
    requires ActiveExists(st)
    ensures ActiveExists(EditActive(st, e))
    ensures ActiveComponents(EditActive(st, e)) == ApplyEdit(e, ActiveComponents(st))
  {
    var r := EditActive(st, e);
    var i := FindScreen(st.screens, st.activeScreenId).value;
    assert FirstScreenAt(r.screens, r.activeScreenId, i);
  }

  /** When no screen carries the active id, an edit changes nothing. */
  lemma EditDanglingIsNoOp(st: AppState, e: Edit)
    requires !ActiveExists(st)
    ensures EditActive(st, e) == st
  {
    var r := EditActive(st, e);
    assert r.screens == st.screens;
  }

  /** Appends `c` to every active screen. */
  function AddComponent(st: AppState, c: Component): (r: AppState)
    ensures |r.screens| == |st.screens|
    ensures forall i :: 0 <= i < |st.screens| && st.screens[i].id == st.activeScreenId ==>
              && r.screens[i].id == st.screens[i].id && r.screens[i].name == st.screens[i].name
              && r.screens[i].components == st.screens[i].components + [c]
    ensures forall i :: 0 <= i < |st.screens| && st.screens[i].id != st.activeScreenId ==>
              r.screens[i] == st.screens[i]
    ensures r.activeScreenId == st.activeScreenId && r.selectedId == st.selectedId
    ensures r.isPreviewMode == st.isPreviewMode
    ensures !ActiveExists(st) ==> r == st
  {
    var r := EditActive(st, Append(c));
    assert !ActiveExists(st) ==> r == st by {
      if !ActiveExists(st) { EditDanglingIsNoOp(st, Append(c)); }
    }
    r
  }

  /** The shown list grows by the new component at its end. */
  lemma AddComponentAppends(st: AppState, c: Component)
    requires ActiveExists(st)
    ensures ActiveExists(AddComponent(st, c))
    ensures ActiveComponents(AddComponent(st, c)) == ActiveComponents(st) + [c]
    ensures |ActiveComponents(AddComponent(st, c))| == |ActiveComponents(st)| + 1
  {
    EditActiveShows(st, Append(c));
  }

  /** A run of `addComponent` calls, in order (each step is the `Append` edit
      that `AddComponent` applies). */
  function AddComponents(st: AppState, cs: seq<Component>): AppState
    decreases |cs|
  {
    if |cs| == 0 then st else AddComponents(EditActive(st, Append(cs[0])), cs[1..])
  }

  /** Any run of `addComponent` calls appends exactly its components, in
      insertion order, to the shown list. */
  lemma {:induction false} AddComponentsInOrder(st: AppState, cs: seq<Component>)
    requires ActiveExists(st)
    ensures ActiveExists(AddComponents(st, cs))
    ensures ActiveComponents(AddComponents(st, cs)) == ActiveComponents(st) + cs
    decreases |cs|
  {
    if |cs| > 0 {
      var st1 := EditActive(st, Append(cs[0]));
      var shown := ActiveComponents(st);
      assert AddComponents(st, cs) == AddComponents(st1, cs[1..]);
      assert ActiveExists(st1) && ActiveComponents(st1) == shown + [cs[0]] by {
        EditActiveShows(st, Append(cs[0]));
      }
      AddComponentsInOrder(st1, cs[1..]);
      assert shown + [cs[0]] + cs[1..] == shown + cs;
    }
  }

  /** The object spread `{ ...props, ...patch }`: a shallow merge where the
      patch wins. */
  function MergeProps(props: Record, patch: Record): (r: Record)
    ensures r.Keys == props.Keys + patch.Keys
    ensures forall k :: k in patch ==> r[k] == patch[k]
    ensures forall k :: k in props && k !in patch ==> r[k] == props[k]
  {
    props + patch
  }

  /** Two merges keep both patches' keys: `{a: x}` then `{b: y}` leaves both. */
  lemma MergeTwiceKeepsBoth(props: Record, a: string, x: Value, b: string, y: Value)
    requires a != b
    ensures Get(MergeProps(MergeProps(props, map[a := x]), map[b := y]), a) == x
    ensures Get(MergeProps(MergeProps(props, map[a := x]), map[b := y]), b) == y
    ensures MergeProps(MergeProps(props, map[a := x]), map[b := y]).Keys == props.Keys + {a, b}
  {
  }

  function UpdateIn(cs: seq<Component>, id: string, patch: Record): seq<Component> {
    seq(|cs|, j requires 0 <= j < |cs| => if cs[j].id == id then cs[j].(props := MergeProps(cs[j].props, patch)) else cs[j])
  }

  predicate HasComponent(cs: seq<Component>, id: string) {
    exists j :: 0 <= j < |cs| && cs[j].id == id
  }

  /** `after` is `before` with `patch` shallow-merged into its props when it
      carries the id, and `before` untouched otherwise. */
  predicate UpdatedComponent(before: Component, after: Component, id: string, patch: Record) {
    && after.id == before.id && after.kind == before.kind && after.children == before.children
    && (before.id == id ==> after.props == MergeProps(before.props, patch))
    && (before.id != id ==> after == before)
  }

  /** Shallow-merges `patch` into the props of every component with the id, on
      the active screens only. */
  function UpdateComponent(st: AppState, id: string, patch: Record): (r: AppState)
    ensures |r.screens| == |st.screens|
    ensures forall i :: 0 <= i < |st.screens| && st.screens[i].id == st.activeScreenId ==>
              && r.screens[i].id == st.screens[i].id && r.screens[i].name == st.screens[i].name
              && |r.screens[i].components| == |st.screens[i].components|
              && forall j :: 0 <= j < |st.screens[i].components| ==>
                   UpdatedComponent(st.screens[i].components[j], r.screens[i].components[j], id, patch)
    ensures forall i :: 0 <= i < |st.screens| && st.screens[i].id != st.activeScreenId ==>
              r.screens[i] == st.screens[i]
    ensures r.activeScreenId == st.activeScreenId && r.selectedId == st.selectedId
    ensures r.isPreviewMode == st.isPreviewMode
  {
    EditActive(st, Update(id, patch))
  }

  /** Updating an id that no active screen holds leaves the screens as they were. */
  lemma UpdateAbsentIsNoOp(st: AppState, id: string, patch: Record)
    requires forall i :: 0 <= i < |st.screens| && st.screens[i].id == st.activeScreenId ==>
               !HasComponent(st.screens[i].components, id)
    ensures UpdateComponent(st, id, patch) == st
  {
    var r := UpdateComponent(st, id, patch);
    forall i | 0 <= i < |st.screens|
      ensures r.screens[i] == st.screens[i]
    {
      if st.screens[i].id == st.activeScreenId {
        assert r.screens[i].components == st.screens[i].components;
      }
    }
    assert r.screens == st.screens;
  }

  /** Two successive updates of one shown component keep both patches. */
  lemma UpdateTwiceKeepsBoth(st: AppState, id: string, a: string, x: Value, b: string, y: Value, j: nat)
    requires a != b && ActiveExists(st)
    requires j < |ActiveComponents(st)| && ActiveComponents(st)[j].id == id
    ensures var r := UpdateComponent(UpdateComponent(st, id, map[a := x]), id, map[b := y]);
            && j < |ActiveComponents(r)|
            && Get(ActiveComponents(r)[j].props, a) == x
            && Get(ActiveComponents(r)[j].props, b) == y
  {
    var e1 := Update(id, map[a := x]);
    var e2 := Update(id, map[b := y]);
    var st1 := EditActive(st, e1);
    var st2 := EditActive(st1, e2);
    var shown := ActiveComponents(st);
    var once := UpdateIn(shown, id, map[a := x]);
    assert ActiveExists(st1) && ActiveComponents(st1) == once by {
      EditActiveShows(st, e1);
    }
    assert ActiveComponents(st2) == UpdateIn(once, id, map[b := y]) by {
      EditActiveShows(st1, e2);
    }
    assert once[j].id == id && once[j].props == MergeProps(shown[j].props, map[a := x]);
    assert UpdateIn(once, id, map[b := y])[j].props == MergeProps(once[j].props, map[b := y]);
    MergeTwiceKeepsBoth(shown[j].props, a, x, b, y);
    assert UpdateComponent(st, id, map[a := x]) == st1;
    assert UpdateComponent(st1, id, map[b := y]) == st2;
  }

  /** `cs.filter(c => c.id !== id)` */
  function RemoveId(cs: seq<Component>, id: string): (r: seq<Component>)
    ensures forall j :: 0 <= j < |r| ==> r[j].id != id
    ensures forall c :: c in r ==> c in cs
    ensures forall c :: c in cs && c.id != id ==> c in r
    ensures Subsequence(r, cs)
    ensures forall c :: multiset(r)[c] == if c.id != id then multiset(cs)[c] else 0
    ensures !HasComponent(cs, id) ==> r == cs
    decreases |cs|
  {
    if |cs| == 0 then []
    else
      var rest := RemoveId(cs[1..], id);
      var r := if cs[0].id == id then rest else [cs[0]] + rest;
      RemoveStepIds(cs, id, rest, r);
      RemoveStepCounts(cs, id, rest, r);
      RemovedMembers(cs, id, r);
      RemoveStepOrder(cs, id, rest, r);
      r
  }

  // One step of `RemoveId`: what holds of the tail carries over to the whole.

  lemma RemoveStepIds(cs: seq<Component>, id: string, rest: seq<Component>, r: seq<Component>)
    requires |cs| > 0 && r == (if cs[0].id == id then rest else [cs[0]] + rest)
    requires forall j :: 0 <= j < |rest| ==> rest[j].id != id
    ensures forall j :: 0 <= j < |r| ==> r[j].id != id
  {
    if cs[0].id != id {
      assert forall j :: 1 <= j < |r| ==> r[j] == rest[j - 1];
    }
  }

  lemma RemoveStepCounts(cs: seq<Component>, id: string, rest: seq<Component>, r: seq<Component>)
    requires |cs| > 0 && r == (if cs[0].id == id then rest else [cs[0]] + rest)
    requires forall c :: multiset(rest)[c] == if c.id != id then multiset(cs[1..])[c] else 0
    ensures forall c :: multiset(r)[c] == if c.id != id then multiset(cs)[c] else 0
  {
    assert cs == [cs[0]] + cs[1..];
    assert multiset(cs) == multiset{cs[0]} + multiset(cs[1..]);
    forall c ensures multiset(r)[c] == if c.id != id then multiset(cs)[c] else 0 {
      if cs[0].id != id {
        assert multiset(r) == multiset{cs[0]} + multiset(rest);
      }
    }
  }

  /** Counts decide membership. */
  lemma RemovedMembers(cs: seq<Component>, id: string, r: seq<Component>)
    requires forall c :: multiset(r)[c] == if c.id != id then multiset(cs)[c] else 0
    ensures forall c :: c in r ==> c in cs
    ensures forall c :: c in cs && c.id != id ==> c in r
  {
    forall c | c in r ensures c in cs {
      assert multiset(r)[c] > 0;
    }
    forall c | c in cs && c.id != id ensures c in r {
      assert multiset(cs)[c] > 0;
    }
  }

  lemma RemoveStepOrder(cs: seq<Component>, id: string, rest: seq<Component>, r: seq<Component>)
    requires |cs| > 0 && r == (if cs[0].id == id then rest else [cs[0]] + rest)
    requires forall j :: 0 <= j < |rest| ==> rest[j].id != id
    requires Subsequence(rest, cs[1..])
    requires !HasComponent(cs[1..], id) ==> rest == cs[1..]
    ensures Subsequence(r, cs)
    ensures !HasComponent(cs, id) ==> r == cs
  {
    if cs[0].id != id {
      assert r[0] == cs[0] && r[1..] == rest;
      assert cs == [cs[0]] + cs[1..];
    } else if |rest| > 0 {
      assert rest[0] != cs[0];
    }
    if HasComponent(cs[1..], id) {
      var j :| 0 <= j < |cs[1..]| && cs[1..][j].id == id;
      assert cs[j + 1].id == id;
    }
  }

  /** Removing twice removes nothing more. */
  lemma {:induction false} RemoveIdIdempotent(cs: seq<Component>, id: string)
    ensures RemoveId(RemoveId(cs, id), id) == RemoveId(cs, id)
  {
    var r := RemoveId(cs, id);
    assert !HasComponent(r, id);
  }

  /** Filters the component out of every active screen; the selection is left
      as it was, even when it named the removed component. */
  function RemoveComponent(st: AppState, id: string): (r: AppState)
    ensures |r.screens| == |st.screens|
    ensures forall i :: 0 <= i < |st.screens| && st.screens[i].id == st.activeScreenId ==>
              && r.screens[i].id == st.screens[i].id && r.screens[i].name == st.screens[i].name
              && !HasComponent(r.screens[i].components, id)
              && Subsequence(r.screens[i].components, st.screens[i].components)
              && (forall c :: c in st.screens[i].components && c.id != id ==> c in r.screens[i].components)
              && (forall c :: multiset(r.screens[i].components)[c] ==
                    if c.id != id then multiset(st.screens[i].components)[c] else 0)
    ensures forall i :: 0 <= i < |st.screens| && st.screens[i].id != st.activeScreenId ==>
              r.screens[i] == st.screens[i]
    ensures r.activeScreenId == st.activeScreenId && r.selectedId == st.selectedId
    ensures r.isPreviewMode == st.isPreviewMode
  {
    EditActive(st, Remove(id))
  }

  /** `removeComponent` is idempotent on the whole state. */
  lemma RemoveComponentIdempotent(st: AppState, id: string)
    ensures RemoveComponent(RemoveComponent(st, id), id) == RemoveComponent(st, id)
  {
    var r1 := RemoveComponent(st, id);
    var r2 := RemoveComponent(r1, id);
    forall i | 0 <= i < |st.screens|
      ensures r2.screens[i] == r1.screens[i]
    {
      if st.screens[i].id == st.activeScreenId {
        RemoveIdIdempotent(st.screens[i].components, id);
      }
    }
    assert r2.screens == r1.screens;
  }

  /** Removing an id no active screen holds leaves the screens as they were. */
  lemma RemoveAbsentIsNoOp(st: AppState, id: string)
    requires forall i :: 0 <= i < |st.screens| && st.screens[i].id == st.activeScreenId ==>
               !HasComponent(st.screens[i].components, id)
    ensures RemoveComponent(st, id) == st
  {
    var r := RemoveComponent(st, id);
    assert r.screens == st.screens;
  }

  /** Removing the selected component leaves a selection that no shown
      component carries. */
  lemma RemoveSelectedLeavesDanglingSelection(st: AppState, id: string)
    requires st.selectedId == Some(id) && ActiveExists(st)
    ensures RemoveComponent(st, id).selectedId == Some(id)
    ensures !HasComponent(ActiveComponents(RemoveComponent(st, id)), id)
  {
    EditActiveShows(st, Remove(id));
  }

  /** Replaces the components of every active screen with `cs`, unchecked. */
  function ReorderComponents(st: AppState, cs: seq<Component>): (r: AppState)
    ensures |r.screens| == |st.screens|
    ensures forall i :: 0 <= i < |st.screens| ==>
              r.screens[i].id == st.screens[i].id && r.screens[i].name == st.screens[i].name
    ensures forall i :: 0 <= i < |st.screens| && st.screens[i].id == st.activeScreenId ==>
              r.screens[i].components == cs
    ensures forall i :: 0 <= i < |st.screens| && st.screens[i].id != st.activeScreenId ==>
              r.screens[i] == st.screens[i]
    ensures r.activeScreenId == st.activeScreenId && r.selectedId == st.selectedId
    ensures r.isPreviewMode == st.isPreviewMode
  {
    EditActive(st, Replace(cs))
  }

  /** Reading the shown list back after a reorder gives exactly the new order. */
  lemma ReorderThenRead(st: AppState, cs: seq<Component>)
    requires ActiveExists(st)
    ensures ActiveComponents(ReorderComponents(st, cs)) == cs
  {
    EditActiveShows(st, Replace(cs));
  }

  /** Every component edit keeps the active id pointing at a screen. */
  lemma EditsPreserveActiveExists(st: AppState, c: Component, id: string, patch: Record, cs: seq<Component>)
    requires ActiveExists(st)
    ensures ActiveExists(AddComponent(st, c))
    ensures ActiveExists(UpdateComponent(st, id, patch))
    ensures ActiveExists(RemoveComponent(st, id))
    ensures ActiveExists(ReorderComponents(st, cs))
    ensures ActiveExists(SetPreviewMode(st, true)) && ActiveExists(SetPreviewMode(st, false))
    ensures ActiveExists(SelectComponent(st, Some(id)))
  {
    EditActiveShows(st, Append(c));
    EditActiveShows(st, Update(id, patch));
    EditActiveShows(st, Remove(id));
    EditActiveShows(st, Replace(cs));
  }
}
