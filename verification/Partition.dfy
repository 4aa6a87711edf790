/** `insert` hands every entity to exactly one `_insert_entities_of_type` call. */
module Partition {
  import opened Sequences
  import opened Strings
  import opened Ngsi
  import opened RowInsert
  import opened Grouping
  import opened Translator

  function Destined(path: Option<string>, etype: string): Addressed -> bool {
    (a: Addressed) => a.path == path && a.entity.etype == etype
  }

  /** The call carries just the entities of its path and type, in input order, and at least one. */
  ghost predicate RightCall(call: Call, tagged: seq<Addressed>) {
    call.entities == Map(EntityOf(), Filter(Destined(call.path, call.etype), tagged)) && call.entities != []
  }

  ghost predicate Covers(calls: seq<Call>, a: Addressed) {
    exists c :: c in calls && c.path == a.path && c.etype == a.entity.etype
  }

  ghost predicate OneCallEach(calls: seq<Call>) {
    forall i, j :: 0 <= i < j < |calls| ==> calls[i].path != calls[j].path || calls[i].etype != calls[j].etype
  }

  /** The calls serve all entities at the given paths and no others. */
  ghost predicate Serves(calls: seq<Call>, tagged: seq<Addressed>, paths: seq<Option<string>>) {
    && (forall c :: c in calls ==> c.path in paths && RightCall(c, tagged))
    && (forall a :: a in tagged && a.path in paths ==> Covers(calls, a))
    && OneCallEach(calls)
  }

  /** Filtering by path and then by type is filtering by both. */
  lemma {:induction false} FilterTwice(tagged: seq<Addressed>, path: Option<string>, etype: string)
    ensures Filter(HasKey(TypeOf(), etype), Map(EntityOf(), Filter(HasKey(PathOf(), path), tagged)))
         == Map(EntityOf(), Filter(Destined(path, etype), tagged))
  {
    if tagged != [] {
      FilterTwice(tagged[1..], path, etype);
    }
  }

  function AtPath(tagged: seq<Addressed>, path: Option<string>): seq<Addressed> {
    Filter(HasKey(PathOf(), path), tagged)
  }

  /** The calls for one service path. */
  lemma CallsAtServe(tagged: seq<Addressed>, path: Option<string>)
    ensures Serves(CallsAt(path, Map(EntityOf(), AtPath(tagged, path))), tagged, [path])
  {
    var es := Map(EntityOf(), AtPath(tagged, path));
    var calls := CallsAt(path, es);
    var keys := FirstKeys(TypeOf(), es);
    FirstKeysFacts(TypeOf(), es);
    forall c | c in calls ensures c.path in [path] && RightCall(c, tagged) {
      var i :| 0 <= i < |calls| && calls[i] == c;
      assert keys[i] in keys;
      CallIsRight(tagged, path, keys[i]);
    }
    forall a | a in tagged && a.path in [path] ensures Covers(calls, a) {
      TypeListed(tagged, path, a);
      assert a.entity.etype in keys;
      var i :| 0 <= i < |keys| && keys[i] == a.entity.etype;
      assert calls[i] in calls;
    }
  }

  lemma CallIsRight(tagged: seq<Addressed>, path: Option<string>, etype: string)
    requires etype in FirstKeys(TypeOf(), Map(EntityOf(), AtPath(tagged, path)))
    ensures var es := Map(EntityOf(), AtPath(tagged, path));
      RightCall(Call(etype, path, Filter(HasKey(TypeOf(), etype), es)), tagged)
  {
    var es := Map(EntityOf(), AtPath(tagged, path));
    FilterTwice(tagged, path, etype);
    FirstKeysFacts(TypeOf(), es);
    FilterMembers(HasKey(TypeOf(), etype), es);
    var e :| e in es && TypeOf()(e) == etype;
    assert e in Filter(HasKey(TypeOf(), etype), es);
  }

  lemma TypeListed(tagged: seq<Addressed>, path: Option<string>, a: Addressed)
    requires a in tagged && a.path == path
    ensures a.entity.etype in FirstKeys(TypeOf(), Map(EntityOf(), AtPath(tagged, path)))
  {
    var here := AtPath(tagged, path);
    var es := Map(EntityOf(), here);
    FilterMembers(HasKey(PathOf(), path), tagged);
    FirstKeysFacts(TypeOf(), es);
    var k :| 0 <= k < |here| && here[k] == a;
    assert es[k] == a.entity && es[k] in es;
    assert TypeOf()(es[k]) in FirstKeys(TypeOf(), es);
  }

  lemma {:induction false} AllAtOnePath(tagged: seq<Addressed>, path: Option<string>)
    requires forall a :: a in tagged ==> a.path == path
    ensures AtPath(tagged, path) == tagged
  {
    if tagged != [] { AllAtOnePath(tagged[1..], path); }
  }

  /** The calls for several paths, given one after the other. */
  function CallsAtPaths(tagged: seq<Addressed>, paths: seq<Option<string>>): seq<Call> {
    if paths == [] then []
    else CallsAt(paths[0], Map(EntityOf(), AtPath(tagged, paths[0]))) + CallsAtPaths(tagged, paths[1..])
  }

  lemma ServesConcat(a: seq<Call>, b: seq<Call>, tagged: seq<Addressed>, p: Option<string>, paths: seq<Option<string>>)
    requires Serves(a, tagged, [p]) && Serves(b, tagged, paths) && p !in paths
    ensures Serves(a + b, tagged, [p] + paths)
  {
  }

  lemma {:induction false} PathsServed(tagged: seq<Addressed>, paths: seq<Option<string>>)
    requires Distinct(paths)
    ensures Serves(CallsAtPaths(tagged, paths), tagged, paths)
  {
    if paths != [] {
      PathsServed(tagged, paths[1..]);
      CallsAtServe(tagged, paths[0]);
      ServesConcat(CallsAt(paths[0], Map(EntityOf(), AtPath(tagged, paths[0]))), CallsAtPaths(tagged, paths[1..]),
                   tagged, paths[0], paths[1..]);
      assert [paths[0]] + paths[1..] == paths;
    }
  }

  lemma {:induction false} CallsByPathIsCallsAtPaths(tagged: seq<Addressed>, paths: seq<Option<string>>,
                                                     groups: seq<Group<Option<string>, Addressed>>)
    requires |groups| == |paths|
    requires forall i :: 0 <= i < |paths| ==> groups[i] == Group(paths[i], AtPath(tagged, paths[i]))
    ensures CallsByPath(groups) == CallsAtPaths(tagged, paths)
  {
    if paths != [] { CallsByPathIsCallsAtPaths(tagged, paths[1..], groups[1..]); }
  }

  lemma AddressedEntities(paths: seq<Option<string>>, es: seq<Entity>)
    requires |paths| == 1 || |paths| == |es|
    ensures Map(EntityOf(), Address(paths, es)) == es
  {
  }

  lemma ManyPathsServed(tagged: seq<Addressed>)
    ensures Serves(CallsByPath(GroupBy(PathOf(), tagged)), tagged, FirstKeys(PathOf(), tagged))
    ensures forall a :: a in tagged ==> a.path in FirstKeys(PathOf(), tagged)
  {
    var keys := FirstKeys(PathOf(), tagged);
    FirstKeysFacts(PathOf(), tagged);
    PathsServed(tagged, keys);
    CallsByPathIsCallsAtPaths(tagged, keys, GroupBy(PathOf(), tagged));
    forall a | a in tagged ensures a.path in keys { assert PathOf()(a) in keys; }
  }

  /** Every entity goes to the one call of its own type and its own service path, in input order; when the
      number of paths is neither one nor that of the entities nothing is called at all. */
  lemma InsertPartitions(es: seq<Entity>, path: Option<string>)
    ensures var paths := ServicePaths(path);
      Calls(es, path).Success? <==> |paths| == 1 || |paths| == |es|
    ensures var paths := ServicePaths(path);
      Calls(es, path).Success? ==>
        var tagged, calls := Address(paths, es), Calls(es, path).value;
        && (forall c :: c in calls ==> RightCall(c, tagged))
        && (forall a :: a in tagged ==> Covers(calls, a))
        && OneCallEach(calls)
  {
    var paths := ServicePaths(path);
    if |paths| == 1 {
      var tagged := Address(paths, es);
      AddressedEntities(paths, es);
      AllAtOnePath(tagged, paths[0]);
      CallsAtServe(tagged, paths[0]);
    } else if |paths| == |es| {
      ManyPathsServed(Address(paths, es));
    }
  }

  /** A call carries just the entities of its type whose own path, or the one path given, is that of the call: those at
      `picks`, in input order. */
  ghost predicate Picks(call: Call, es: seq<Entity>, paths: seq<Option<string>>, picks: seq<nat>)
    requires |paths| == 1 || |paths| == |es|
  {
    && (forall a, b :: 0 <= a < b < |picks| ==> picks[a] < picks[b])
    && (forall i: nat :: i in picks <==>
          && i < |es| && es[i].etype == call.etype
          && (if |paths| == 1 then paths[0] else paths[i]) == call.path)
    && |call.entities| == |picks|
    && forall k :: 0 <= k < |picks| ==> picks[k] < |es| && call.entities[k] == es[picks[k]]
  }

  lemma CallPicks(es: seq<Entity>, path: Option<string>, call: Call) returns (picks: seq<nat>)
    requires Calls(es, path).Success? && call in Calls(es, path).value
    ensures |ServicePaths(path)| == 1 || |ServicePaths(path)| == |es|
    ensures picks != [] && Picks(call, es, ServicePaths(path), picks)
  {
    InsertPartitions(es, path);
    var tagged := Address(ServicePaths(path), es);
    assert RightCall(call, tagged);
    picks := FilterPositions(Destined(call.path, call.etype), tagged);
    assert forall k :: 0 <= k < |picks| ==> picks[k] in picks;
  }

  function PathText(): Option<string> -> string {
    (p: Option<string>) => if p.Some? then p.value else ""
  }

  /** The service paths are the comma-separated pieces of the header without its spaces, no more and no fewer; without
      a header there is the one path given. */
  lemma PathsAreThePieces(path: Option<string>)
    ensures var paths := ServicePaths(path);
      if path.None? || path.value == "" then paths == [path]
      else && (forall p :: p in paths ==> p.Some? && ',' !in p.value && ' ' !in p.value)
           && Join(Map(PathText(), paths), ',') == Filter(NotSpace(), path.value)
  {
    if path.Some? && path.value != "" {
      var clean := StripSpaces(path.value);
      StripSpacesFilters(path.value);
      JoinSplit(clean, ',');
      PathTexts(path.value);
      forall p | p in ServicePaths(path) ensures p.Some? && ',' !in p.value && ' ' !in p.value {
        var i :| 0 <= i < |ServicePaths(path)| && ServicePaths(path)[i] == p;
        PieceOfPath(clean, Split(clean, ',')[i]);
      }
    }
  }

  lemma PathTexts(path: string)
    requires path != ""
    ensures var paths, pieces := ServicePaths(Some(path)), Split(StripSpaces(path), ',');
      && Map(PathText(), paths) == pieces && |paths| == |pieces|
      && forall i :: 0 <= i < |paths| ==> paths[i] == Some(pieces[i])
  {
    var paths, pieces := ServicePaths(Some(path)), Split(StripSpaces(path), ',');
    assert forall i :: 0 <= i < |paths| ==> Map(PathText(), paths)[i] == pieces[i];
  }

  lemma PieceOfPath(clean: string, p: string)
    requires p in Split(clean, ',') && ' ' !in clean
    ensures ',' !in p && ' ' !in p
  {
    SplitMembers(clean, ',');
  }

  /** A path-count mismatch raises with the store untouched. */
  lemma MismatchInsertsNothing(s: Store, config: Config, es: seq<Entity>, service: Option<string>,
                               path: Option<string>, now: int)
    requires Lists(config)
    requires |ServicePaths(path)| != 1 && |ServicePaths(path)| != |es|
    ensures AfterInsert(s, config, es, service, path, now) == (s, Some(BadServicePaths))
  {
  }
}
