/** The grouped permission views (app/components/permissions/grid-view.tsx and
    app/components/permissions/sections.tsx): permissions grouped by object with
    each group's actions sorted, then narrowed by a two-level search. Both files
    run the same steps; a group record is a map from object to actions. */
module PermissionGroups {
  import opened SeqUtil
  import opened JsText
  import opened StringOrder
  import opened PermissionUtils

  /** A record from object name to its actions. */
  type Groups = map<string, seq<string>>

  /** The objects named by `items`. */
  function Objects(items: seq<PermissionData>): set<string> {
    set i | 0 <= i < |items| :: items[i].obj
  }

  lemma ObjectsSnoc(items: seq<PermissionData>, p: PermissionData)
    ensures Objects(items + [p]) == Objects(items) + {p.obj}
  {
    var s := items + [p];
    assert forall i :: 0 <= i < |items| ==> s[i] == items[i];
    assert s[|items|] == p;
    forall o | o in Objects(s) ensures o in Objects(items) + {p.obj} {
      var i :| 0 <= i < |s| && s[i].obj == o;
    }
    forall o | o in Objects(items) ensures o in Objects(s) {
      var i :| 0 <= i < |items| && items[i].obj == o;
      assert s[i].obj == o;
    }
  }

  /** The actions of the items on object `o`, in item order, duplicates kept. */
  function ActionsOf(items: seq<PermissionData>, o: string): (r: seq<string>)
    ensures |r| <= |items|
  {
    if items == [] then []
    else
      var init, p := items[..|items| - 1], items[|items| - 1];
      ActionsOf(init, o) + (if p.obj == o then [p.action] else [])
  }

  /** One more item adds its action at the end of its own object's actions. */
  lemma ActionsOfSnoc(items: seq<PermissionData>, p: PermissionData, o: string)
    ensures ActionsOf(items + [p], o) == ActionsOf(items, o) + (if p.obj == o then [p.action] else [])
  {
    assert (items + [p])[..|items|] == items;
  }

  /** Every item's action is among its object's actions. */
  lemma {:induction false} ActionsOfHasItem(items: seq<PermissionData>, i: nat)
    requires i < |items|
    ensures items[i].action in ActionsOf(items, items[i].obj)
  {
    var init, p := items[..|items| - 1], items[|items| - 1];
    assert init + [p] == items;
    ActionsOfSnoc(init, p, items[i].obj);
    if i < |init| {
      ActionsOfHasItem(init, i);
      assert init[i] == items[i];
    }
  }

  /** An object no item names has no actions. */
  lemma {:induction false} ActionsOfAbsent(items: seq<PermissionData>, o: string)
    requires o !in Objects(items)
    ensures ActionsOf(items, o) == []
  {
    if items != [] {
      var init, p := items[..|items| - 1], items[|items| - 1];
      assert init + [p] == items;
      ObjectsSnoc(init, p);
      ActionsOfAbsent(init, o);
    }
  }

  /** The grouping before sorting: each object's actions in item order. */
  function Collected(items: seq<PermissionData>): (g: Groups)
    ensures g.Keys == Objects(items)
  {
    map o | o in Objects(items) :: ActionsOf(items, o)
  }

  lemma CollectedSnoc(items: seq<PermissionData>, p: PermissionData)
    ensures Collected(items + [p]) == Collected(items)[p.obj := ActionsOf(items, p.obj) + [p.action]]
  {
    var g, h := Collected(items + [p]), Collected(items)[p.obj := ActionsOf(items, p.obj) + [p.action]];
    ObjectsSnoc(items, p);
    assert g.Keys == h.Keys;
    forall o | o in g ensures g[o] == h[o] {
      ActionsOfSnoc(items, p, o);
    }
  }

  /** The grouping the views show (grid-view.tsx:17-33, sections.tsx:15-31): one
      key per object, its actions sorted. */
  function Grouped(items: seq<PermissionData>): (g: Groups)
    ensures g.Keys == Objects(items)
    ensures forall o :: o in g ==> Sorted(g[o]) && multiset(g[o]) == multiset(ActionsOf(items, o))
  {
    map o | o in Objects(items) :: Sort(ActionsOf(items, o))
  }

  /** Every item's action is listed under its object. */
  lemma ItemListedUnderItsObject(items: seq<PermissionData>, i: nat)
    requires i < |items|
    ensures items[i].obj in Grouped(items)
    ensures items[i].action in Grouped(items)[items[i].obj]
  {
    var o := items[i].obj;
    assert o in Objects(items);
    ActionsOfHasItem(items, i);
    assert items[i].action in multiset(ActionsOf(items, o));
  }

  /** The sum of the group sizes over the keys `keys`. */
  function SizeSum(g: Groups, keys: seq<string>): nat
    requires forall k :: k in keys ==> k in g
  {
    if keys == [] then 0 else |g[keys[0]]| + SizeSum(g, keys[1..])
  }

  /** The sum of the sizes of the unsorted groups over `keys`. */
  function Total(items: seq<PermissionData>, keys: seq<string>): nat {
    if keys == [] then 0 else |ActionsOf(items, keys[0])| + Total(items, keys[1..])
  }

  lemma {:induction false} TotalSnoc(items: seq<PermissionData>, p: PermissionData, keys: seq<string>)
    requires NoDup(keys)
    ensures Total(items + [p], keys) == Total(items, keys) + (if p.obj in keys then 1 else 0)
  {
    if keys != [] {
      ActionsOfSnoc(items, p, keys[0]);
      NoDupTail(keys);
      TotalSnoc(items, p, keys[1..]);
      assert p.obj in keys <==> p.obj == keys[0] || p.obj in keys[1..] by {
        assert keys == [keys[0]] + keys[1..];
      }
    }
  }

  lemma {:induction false} TotalCountsItems(items: seq<PermissionData>, keys: seq<string>)
    requires NoDup(keys)
    requires forall o :: o in Objects(items) ==> o in keys
    ensures Total(items, keys) == |items|
  {
    if items == [] {
      TotalEmpty(keys);
    } else {
      var init, p := items[..|items| - 1], items[|items| - 1];
      assert init + [p] == items;
      ObjectsSnoc(init, p);
      TotalCountsItems(init, keys);
      TotalSnoc(init, p, keys);
    }
  }

  lemma {:induction false} TotalEmpty(keys: seq<string>)
    ensures Total([], keys) == 0
  {
    if keys != [] {
      TotalEmpty(keys[1..]);
    }
  }

  lemma {:induction false} SizeSumIsTotal(items: seq<PermissionData>, keys: seq<string>)
    requires forall k :: k in keys ==> k in Grouped(items)
    ensures SizeSum(Grouped(items), keys) == Total(items, keys)
  {
    if keys != [] {
      var g := Grouped(items);
      assert |g[keys[0]]| == |multiset(g[keys[0]])| == |ActionsOf(items, keys[0])|;
      SizeSumIsTotal(items, keys[1..]);
    }
  }

  /** Duplicates are kept: listing each group once, the group sizes add up to the
      number of items (grid-view.tsx:20-25, sections.tsx:18-23). */
  lemma GroupSizesSumToItemCount(items: seq<PermissionData>, keys: seq<string>)
    requires NoDup(keys)
    requires forall k :: k in keys <==> k in Grouped(items)
    ensures SizeSum(Grouped(items), keys) == |items|
  {
    SizeSumIsTotal(items, keys);
    TotalCountsItems(items, keys);
  }

  /** The grouping loop (grid-view.tsx:18-25, sections.tsx:16-23), with an
      own-key test for "no group yet". */
  method CollectActions(items: seq<PermissionData>) returns (groups: Groups)
    ensures groups == Collected(items)
  {
    groups := map[];
    var i := 0;
    while i < |items|
      invariant 0 <= i <= |items|
      invariant groups == Collected(items[..i])
    {
      var p := items[i];
      ghost var prefix, groups0 := items[..i], groups;
      if p.obj !in groups {
        groups := groups[p.obj := []];
      }
      CollectStep(prefix, p, groups0, groups);
      groups := groups[p.obj := groups[p.obj] + [p.action]];
      assert items[..i + 1] == prefix + [p];
      i := i + 1;
    }
    assert items[..i] == items;
  }

  /** One pass of the grouping loop: once the item's object has a group, the
      item's action appended to it gives the grouping of one more item. */
  lemma CollectStep(prefix: seq<PermissionData>, p: PermissionData, groups0: Groups, groups: Groups)
    requires groups0 == Collected(prefix)
    requires groups == if p.obj in groups0 then groups0 else groups0[p.obj := []]
    ensures p.obj in groups
    ensures Collected(prefix + [p]) == groups[p.obj := groups[p.obj] + [p.action]]
  {
    CollectedSnoc(prefix, p);
    if p.obj !in groups0 {
      ActionsOfAbsent(prefix, p.obj);
    }
  }

  /** The sort loop (grid-view.tsx:27-30, sections.tsx:25-28): every group sorted
      in place, the keys unchanged. */
  method SortGroups(collected: Groups) returns (groups: Groups)
    ensures groups.Keys == collected.Keys
    ensures forall o :: o in groups ==> groups[o] == Sort(collected[o])
  {
    groups := collected;
    var todo := groups.Keys;
    while todo != {}
      invariant todo <= collected.Keys && groups.Keys == collected.Keys
      invariant forall o :: o in groups ==> groups[o] == if o in todo then collected[o] else Sort(collected[o])
      decreases |todo|
    {
      var o :| o in todo;
      ghost var groups0, todo0 := groups, todo;
      groups := groups[o := Sort(groups[o])];
      todo := todo - {o};
      SortStep(collected, groups0, todo0, o, groups, todo);
    }
  }

  /** Sorting one more group keeps the sort loop's invariant. */
  lemma SortStep(collected: Groups, groups0: Groups, todo0: set<string>, o: string, groups: Groups, todo: set<string>)
    requires todo0 <= collected.Keys && groups0.Keys == collected.Keys
    requires forall k :: k in groups0 ==> groups0[k] == if k in todo0 then collected[k] else Sort(collected[k])
    requires o in todo0 && groups == groups0[o := Sort(groups0[o])] && todo == todo0 - {o}
    ensures todo <= collected.Keys && groups.Keys == collected.Keys
    ensures forall k :: k in groups ==> groups[k] == if k in todo then collected[k] else Sort(collected[k])
  {
  }

  /** `groupedPermissions` (grid-view.tsx:17-33, sections.tsx:15-31). */
  method GroupByObject(items: seq<PermissionData>) returns (groups: Groups)
    ensures groups == Grouped(items)
  {
    var collected := CollectActions(items);
    groups := SortGroups(collected);
  }

  /** The names a plain `{}` inherits from `Object.prototype`. */
  const InheritedNames: set<string> := {
    "constructor", "__proto__", "toString", "toLocaleString", "valueOf", "hasOwnProperty",
    "isPrototypeOf", "propertyIsEnumerable", "__defineGetter__", "__defineSetter__",
    "__lookupGetter__", "__lookupSetter__"
  }

  /** The grouping loop as written (grid-view.tsx:18-25, sections.tsx:16-23):
      `!groups[object]` reads inherited members too, so for an object named like an
      `Object.prototype` member no array is created and `.push` throws a TypeError
      (`None`). */
  function CollectedAsWritten(items: seq<PermissionData>): Option<Groups> {
    if items == [] then Some(map[])
    else
      var init, p := items[..|items| - 1], items[|items| - 1];
      match CollectedAsWritten(init)
      case None => None
      case Some(g) =>
        if p.obj in g then Some(g[p.obj := g[p.obj] + [p.action]])
        else if p.obj in InheritedNames then None
        else Some(g[p.obj := [p.action]])
  }

  /** A single permission on object "constructor" makes the grouping throw. */
  lemma AsWrittenThrowsOnConstructor()
    ensures CollectedAsWritten([PermissionData("constructor", "read")]) == None
  {
    var items := [PermissionData("constructor", "read")];
    assert items[..0] == [];
  }

  /** Away from those names the loop as written is the intended grouping. */
  lemma {:induction false} AsWrittenAgreesOtherwise(items: seq<PermissionData>)
    requires forall i :: 0 <= i < |items| ==> items[i].obj !in InheritedNames
    ensures CollectedAsWritten(items) == Some(Collected(items))
  {
    if items != [] {
      var init, p := items[..|items| - 1], items[|items| - 1];
      assert forall i :: 0 <= i < |init| ==> init[i] == items[i];
      AsWrittenAgreesOtherwise(init);
      assert init + [p] == items;
      CollectedSnoc(init, p);
      if p.obj !in Objects(init) {
        ActionsOfAbsent(init, p.obj);
        assert [] + [p.action] == [p.action];
      }
    }
  }

  /** The search test: the lowercased text contains the lowercased query. */
  predicate Matches(text: string, query: string) {
    Contains(Lower(text), Lower(query))
  }

  /** `(action) => action.toLowerCase().includes(query)`. */
  function MatchesQuery(query: string): string -> bool {
    a => Matches(a, query)
  }

  /** What the search keeps of one group (grid-view.tsx:45-53, sections.tsx:43-52):
      everything when the object matches, else the matching actions, and nothing
      when none match. */
  function FilteredEntry(o: string, actions: seq<string>, query: string): (r: Option<seq<string>>)
    ensures Matches(o, query) ==> r == Some(actions)
    ensures !Matches(o, query) ==> r.Some? ==> r.value == Keep(actions, MatchesQuery(query)) && r.value != []
    ensures r.None? <==> !Matches(o, query) && Keep(actions, MatchesQuery(query)) == []
  {
    if Matches(o, query) then Some(actions)
    else
      var hits := Keep(actions, MatchesQuery(query));
      if hits != [] then Some(hits) else None
  }

  /** The filtered grouping (grid-view.tsx:35-58, sections.tsx:33-56): a blank query
      changes nothing, otherwise each group is narrowed as above. The query is
      lowercased but not trimmed. */
  function FilteredGroups(groups: Groups, query: string): (f: Groups)
    ensures IsBlank(query) ==> f == groups
    ensures f.Keys <= groups.Keys
  {
    if IsBlank(query) then groups
    else map o | o in groups && FilteredEntry(o, groups[o], query).Some? :: FilteredEntry(o, groups[o], query).value
  }

  /** The filter loop of grid-view.tsx:35-58 and sections.tsx:33-56. */
  method FilterGroups(groups: Groups, searchQuery: string) returns (filtered: Groups)
    ensures filtered == FilteredGroups(groups, searchQuery)
  {
    if Trim(searchQuery) == [] {
      return groups;
    }
    filtered := map[];
    var todo := groups.Keys;
    while todo != {}
      invariant todo <= groups.Keys
      invariant forall o :: o in filtered ==> o in groups && o !in todo
      invariant forall o :: o in groups && o !in todo ==>
                  (o in filtered <==> FilteredEntry(o, groups[o], searchQuery).Some?)
                  && (o in filtered ==> filtered[o] == FilteredEntry(o, groups[o], searchQuery).value)
      decreases |todo|
    {
      var o :| o in todo;
      var actions := groups[o];
      var objectMatches := Matches(o, searchQuery);
      var matchingActions := Keep(actions, MatchesQuery(searchQuery));
      if objectMatches {
        filtered := filtered[o := actions];
      } else if |matchingActions| > 0 {
        filtered := filtered[o := matchingActions];
      }
      todo := todo - {o};
    }
  }

  /** Each kept group is a subsequence of its group: order is kept and nothing
      is invented (grid-view.tsx:43-54). */
  lemma FilteredIsSubsequence(groups: Groups, query: string, o: string)
    requires o in FilteredGroups(groups, query)
    ensures IsSubseq(FilteredGroups(groups, query)[o], groups[o])
  {
    if IsBlank(query) || Matches(o, query) {
      SubseqRefl(groups[o]);
    } else {
      KeepIsSubseq(groups[o], MatchesQuery(query));
    }
  }

  /** An object whose name matches keeps all its actions; one whose name does not
      match keeps exactly its matching actions, or disappears when there are none. */
  lemma FilterByObjectThenAction(groups: Groups, query: string, o: string)
    requires o in groups && !IsBlank(query)
    ensures Matches(o, query) ==> o in FilteredGroups(groups, query) && FilteredGroups(groups, query)[o] == groups[o]
    ensures !Matches(o, query) ==>
              (o in FilteredGroups(groups, query) <==> exists a :: a in groups[o] && Matches(a, query))
    ensures !Matches(o, query) && o in FilteredGroups(groups, query) ==>
              forall a :: a in FilteredGroups(groups, query)[o] <==> a in groups[o] && Matches(a, query)
  {
    var hits := Keep(groups[o], MatchesQuery(query));
    var f := FilteredGroups(groups, query);
    assert FilteredEntry(o, groups[o], query).None? ==> o !in f;
    assert FilteredEntry(o, groups[o], query).Some? ==> o in f;
    if !Matches(o, query) {
      if exists a :: a in groups[o] && Matches(a, query) {
        var a :| a in groups[o] && Matches(a, query);
        assert MatchesQuery(query)(a);
        assert a in hits;
      } else {
        assert forall a :: a in groups[o] ==> !MatchesQuery(query)(a);
        KeepNone(groups[o], MatchesQuery(query));
      }
    }
  }

  /** A subsequence of a sorted sequence is sorted. */
  lemma {:induction false} SubseqSorted(a: seq<string>, b: seq<string>)
    requires IsSubseq(a, b) && Sorted(b)
    ensures Sorted(a)
    decreases |b|
  {
    if a != [] {
      SortedCons(b[0], b[1..]);
      assert b == [b[0]] + b[1..];
      if a[0] == b[0] {
        SubseqSorted(a[1..], b[1..]);
        assert LeAll(a[0], a[1..]) by {
          forall k | 0 <= k < |a[1..]| ensures Le(a[0], a[1..][k]) {
            SubseqElem(a[1..], b[1..], k);
          }
        }
        SortedCons(a[0], a[1..]);
        assert a == [a[0]] + a[1..];
      } else {
        SubseqSorted(a, b[1..]);
      }
    }
  }

  /** Each element of a subsequence is an element of the sequence. */
  lemma {:induction false} SubseqElem<T(!new)>(a: seq<T>, b: seq<T>, k: nat)
    requires IsSubseq(a, b) && k < |a|
    ensures a[k] in b
    decreases |b|
  {
    assert b == [b[0]] + b[1..];
    if a[0] == b[0] {
      if k > 0 {
        SubseqElem(a[1..], b[1..], k - 1);
      }
    } else {
      SubseqElem(a, b[1..], k);
    }
  }

  /** The filtered view of the grouping keeps every group sorted. */
  lemma FilteredStaysSorted(items: seq<PermissionData>, query: string, o: string)
    requires o in FilteredGroups(Grouped(items), query)
    ensures Sorted(FilteredGroups(Grouped(items), query)[o])
  {
    FilteredIsSubsequence(Grouped(items), query, o);
    SubseqSorted(FilteredGroups(Grouped(items), query)[o], Grouped(items)[o]);
  }

  /** The grid view (grid-view.tsx:17-58): `permissions?.items` may be missing,
      which groups nothing. */
  method GridView(items: Option<seq<PermissionData>>, searchQuery: string) returns (shown: Groups)
    ensures shown == FilteredGroups(Grouped(items.GetOr([])), searchQuery)
  {
    var groups := GroupByObject(items.GetOr([]));
    shown := FilterGroups(groups, searchQuery);
  }

  /** The sections view (sections.tsx:15-67): the filtered grouping, the count
      badge, and whether the empty state is shown instead. */
  method SectionsView(rolePermissions: seq<PermissionData>, searchQuery: string)
    returns (shown: Groups, count: nat, showEmpty: bool)
    ensures shown == FilteredGroups(Grouped(rolePermissions), searchQuery)
    ensures count == |rolePermissions|
    ensures showEmpty <==> rolePermissions == []
    ensures showEmpty ==> shown == map[]
  {
    var groups := GroupByObject(rolePermissions);
    shown := FilterGroups(groups, searchQuery);
    count := |rolePermissions|;
    showEmpty := |rolePermissions| == 0;
  }
}
