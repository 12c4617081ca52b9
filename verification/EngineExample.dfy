/** The example engine: the key table over the value log, and the string map they amount to. */
module ExampleEngines {
  import opened ByteStrings
  import opened EngineTypes
  import opened DataStores
  import opened DoorPlates

  // What a write returns for an engine of `capacity` keys that holds m.
  function WriteCode(m: map<Bytes, Bytes>, capacity: nat, key: Bytes, value: Bytes): RetCode {
    if |value| > SINGLE_FILE_SIZE || |key| > MAX_KEY_LEN then InvalidArgument
    else if key !in m && |m| == capacity then Full
    else Succ
  }

  function Written(m: map<Bytes, Bytes>, capacity: nat, key: Bytes, value: Bytes): map<Bytes, Bytes> {
    if WriteCode(m, capacity, key, value) == Succ then m[key := value] else m
  }

  datatype Pair = Pair(key: Bytes, value: Bytes)

  ghost predicate PairsAscend(pairs: seq<Pair>, i: nat, j: nat)
    requires i < j < |pairs|
  {
    Less(pairs[i].key, pairs[j].key)
  }

  ghost predicate PairStored(m: map<Bytes, Bytes>, lower: Bytes, upper: Bytes, p: Pair) {
    p.key in m && InRange(p.key, lower, upper) && p.value == m[p.key]
  }

  ghost predicate Visits(pairs: seq<Pair>, k: Bytes) {
    exists i :: 0 <= i < |pairs| && pairs[i].key == k
  }

  // The stored keys of a range, each once, ascending, with their values.
  ghost predicate IsRange(pairs: seq<Pair>, m: map<Bytes, Bytes>, lower: Bytes, upper: Bytes) {
    && (forall i, j :: 0 <= i < j < |pairs| ==> PairsAscend(pairs, i, j))
    && (forall i :: 0 <= i < |pairs| ==> PairStored(m, lower, upper, pairs[i]))
    && (forall k :: k in m && InRange(k, lower, upper) ==> Visits(pairs, k))
  }

  ghost predicate ValueFits(m: map<Bytes, Bytes>, k: Bytes) {
    k in m ==> |m[k]| <= SINGLE_FILE_SIZE
  }

  ghost predicate ValuesFit(m: map<Bytes, Bytes>) {
    forall k :: ValueFits(m, k)
  }

  // Each location of the table is where the model's value lies in the log.
  ghost predicate Located(view: map<Bytes, Location>, files: Files, model: map<Bytes, Bytes>, k: Bytes) {
    k in model ==> k in view && LocationHolds(files, view[k], model[k])
  }

  ghost predicate AllLocated(view: map<Bytes, Location>, files: Files, model: map<Bytes, Bytes>) {
    view.Keys == model.Keys && forall k :: Located(view, files, model, k)
  }

  lemma {:induction false} StillLocated(view: map<Bytes, Location>, files: Files, files': Files, model: map<Bytes, Bytes>)
    requires AllLocated(view, files, model) && Extends(files, files')
    ensures AllLocated(view, files', model)
  {
    forall k ensures Located(view, files', model, k) {
      assert Located(view, files, model, k);
      if k in model {
        LocationStays(files, files', view[k], model[k]);
      }
    }
  }

  lemma {:induction false} NowLocated(view: map<Bytes, Location>, files: Files, model: map<Bytes, Bytes>, key: Bytes, l: Location, v: Bytes)
    requires AllLocated(view, files, model) && LocationHolds(files, l, v)
    ensures AllLocated(view[key := l], files, model[key := v])
  {
    var view', model' := view[key := l], model[key := v];
    forall k ensures Located(view', files, model', k) {
      assert Located(view, files, model, k);
    }
  }

  // What the table answers to a key, and what the model then is.
  lemma {:induction false} EnterLaw(view: map<Bytes, Location>, files: Files, model: map<Bytes, Bytes>, capacity: nat,
                                    key: Bytes, l: Location, v: Bytes)
    requires AllLocated(view, files, model) && LocationHolds(files, l, v) && |v| <= SINGLE_FILE_SIZE
    ensures var ret := if |key| > MAX_KEY_LEN then InvalidArgument
                       else if key !in view && |view| == capacity then Full
                       else Succ;
            && ret == WriteCode(model, capacity, key, v)
            && AllLocated(if ret == Succ then view[key := l] else view, files, Written(model, capacity, key, v))
    ensures ValuesFit(model) ==> ValuesFit(Written(model, capacity, key, v))
  {
    if ValuesFit(model) {
      forall k ensures ValueFits(Written(model, capacity, key, v), k) {
        assert ValueFits(model, k);
      }
    }
    SameSize(view, model);
    NowLocated(view, files, model, key, l, v);
  }

  lemma {:induction false} SameSize(view: map<Bytes, Location>, model: map<Bytes, Bytes>)
    requires view.Keys == model.Keys
    ensures |view| == |model|
  {
    assert |view| == |view.Keys| && |model| == |model.Keys|;
  }

  class EngineExample {
    const plate: DoorPlate
    const store: DataStore
    ghost var model: map<Bytes, Bytes>

    ghost predicate Valid()
      reads this, plate, plate.items, store, store.dir
    {
      && plate.Valid() && store.Valid()
      && FileName(0) in store.dir.files
      && AllLocated(plate.View(), store.dir.files, model)
      && ValuesFit(model)
    }

    ghost function Capacity(): nat
    {
      plate.items.Length
    }

    // A new engine in an empty directory, with a key table of `size` items.
    constructor (size: nat, hash: Bytes -> nat)
      requires size > 0
      ensures Valid() && model == map[] && Capacity() == size
      ensures fresh(plate) && fresh(plate.items) && fresh(store) && fresh(store.dir)
    {
      plate := new DoorPlate(size, hash);
      var dir := new Directory();
      store := new DataStore(dir);
      model := map[];
      new;
      assert forall name :: Numbered(store.dir.files, name) && NotNegative(store.dir.files, name);
      var ok := store.Init();
    }

    // The engine opened again on the directory and the key table of a closed one.
    constructor Reopened(closed: EngineExample)
      requires closed.Valid()
      modifies closed.store.dir
      ensures Valid() && model == closed.model && Capacity() == closed.Capacity()
      ensures plate.items == closed.plate.items && store.dir == closed.store.dir && fresh(plate) && fresh(store)
    {
      plate := new DoorPlate.Reopened(closed.plate.items, closed.plate.hash, closed.plate.depth);
      store := new DataStore(closed.store.dir);
      model := closed.model;
      new;
      StoreNumbered(closed.store.dir.files, closed.store.lastNo, closed.store.offset);
      var ok := store.Init();
    }

    // Enters the location of a value just appended, if the table takes the key.
    method Enter(key: Bytes, location: Location, ghost value: Bytes) returns (ret: RetCode)
      requires plate.Valid() && AllLocated(plate.View(), store.dir.files, model) && ValuesFit(model)
      requires LocationHolds(store.dir.files, location, value) && |value| <= SINGLE_FILE_SIZE
      modifies this, plate, plate.items
      ensures plate.Valid() && AllLocated(plate.View(), store.dir.files, model) && ValuesFit(model)
      ensures ret == WriteCode(old(model), Capacity(), key, value)
      ensures model == Written(old(model), Capacity(), key, value)
    {
      EnterLaw(plate.View(), store.dir.files, model, Capacity(), key, location, value);
      ret := plate.AddOrUpdate(key, location);
      model := Written(model, Capacity(), key, value);
    }

    // A write the table refuses has grown the log, but no answer changes.
    method Write(key: Bytes, value: Bytes, schedule: seq<nat>) returns (ret: RetCode)
      requires Valid() && Sum(schedule) >= |value|
      modifies this, plate, plate.items, store, store.dir
      ensures Valid()
      ensures ret ==
        if |value| > SINGLE_FILE_SIZE || |key| > MAX_KEY_LEN then InvalidArgument
        else if key !in old(model) && |old(model)| == Capacity() then Full
        else Succ
      ensures model == if ret == Succ then old(model)[key := value] else old(model)
    {
      var r, location := store.Append(value, schedule);
      ret := r;
      if ret == Succ {
        StillLocated(plate.View(), old(store.dir.files), store.dir.files, model);
        assert ExtendsAt(old(store.dir.files), store.dir.files, FileName(0));
        ret := Enter(key, location, value);
      }
    }

    method Read(key: Bytes, schedule: seq<nat>) returns (ret: RetCode, value: Bytes)
      requires Valid() && (key in model ==> Sum(schedule) >= |model[key]|)
      ensures ret == if key in model || (key == [] && |model| < Capacity()) then Succ else NotFound
      ensures ret == Succ && key in model ==> value == model[key]
      ensures ret == Succ && key !in model ==> value == []
    {
      SameSize(plate.View(), model);
      assert Located(plate.View(), store.dir.files, model, key);
      var location;
      ret, location := plate.Find(key);
      value := [];
      if ret == Succ {
        ret, value := store.Read(location, schedule);
      }
    }

    // The next key of an iteration over a sorted map, and its value read from the log.
    method ReadNext(locations: map<Bytes, Location>, rest: set<Bytes>, schedules: Bytes -> seq<nat>)
      returns (key: Bytes, ret: RetCode, value: Bytes)
      requires Valid() && rest != {} && rest <= locations.Keys
      requires Among(locations, plate.View()) && Enough(schedules, model)
      ensures IsLeast(key, rest) && key in model
      ensures ret == Succ && value == model[key]
    {
      ghost var least := LeastExists(rest);
      key :| key in rest && forall j :: j in rest ==> !Less(j, key);
      assert Located(plate.View(), store.dir.files, model, key) && AmongAt(locations, plate.View(), key);
      assert EnoughFor(schedules, model, key);
      ret, value := store.Read(locations[key], schedules(key));
    }

    // Visits the stored keys of a range in ascending order.
    method Range(lower: Bytes, upper: Bytes, schedules: Bytes -> seq<nat>) returns (ret: RetCode, visited: seq<Pair>)
      requires Valid() && Enough(schedules, model)
      ensures ret == Succ && IsRange(visited, model, lower, upper)
      ensures forall k, v :: Pair(k, v) in visited <==>
        k in model && v == model[k] && (lower == [] || !Less(k, lower)) && (upper == [] || Less(k, upper))
      ensures forall i, j :: 0 <= i < j < |visited| ==> Less(visited[i].key, visited[j].key)
    {
      var locations;
      ret, locations := plate.GetRangeLocation(lower, upper);
      visited := [];
      var rest := locations.Keys;
      VisitNone(plate.View(), model, lower, upper);
      while ret == Succ && rest != {}
        invariant ret == Succ && rest <= locations.Keys
        invariant VisitedSoFar(visited, rest, model, lower, upper)
        decreases |rest|
      {
        var key, r, value := ReadNext(locations, rest, schedules);
        ret := r;
        if ret == Succ {
          VisitNext(visited, rest, model, lower, upper, key);
          visited, rest := visited + [Pair(key, value)], rest - {key};
        }
      }
      AllRangePairs(visited, model, lower, upper);
    }
  }

  ghost predicate AmongAt(locations: map<Bytes, Location>, view: map<Bytes, Location>, k: Bytes) {
    k in locations ==> k in view && locations[k] == view[k]
  }

  ghost predicate Among(locations: map<Bytes, Location>, view: map<Bytes, Location>) {
    forall k :: AmongAt(locations, view, k)
  }

  // The calls that read a key's value transfer all of it in the end.
  ghost predicate EnoughFor(schedules: Bytes -> seq<nat>, m: map<Bytes, Bytes>, k: Bytes) {
    k in m ==> Sum(schedules(k)) >= |m[k]|
  }

  ghost predicate Enough(schedules: Bytes -> seq<nat>, m: map<Bytes, Bytes>) {
    forall k :: EnoughFor(schedules, m, k)
  }

  lemma {:induction false} VisitNone(view: map<Bytes, Location>, m: map<Bytes, Bytes>, lower: Bytes, upper: Bytes)
    requires view.Keys == m.Keys
    ensures Among(Restricted(view, lower, upper), view)
    ensures VisitedSoFar([], Restricted(view, lower, upper).Keys, m, lower, upper)
  {
    assert forall k :: AmongAt(Restricted(view, lower, upper), view, k);
  }

  // The pairs visited are in order and right; the keys still to come are the rest of the range.
  ghost predicate VisitedSoFar(visited: seq<Pair>, rest: set<Bytes>, m: map<Bytes, Bytes>, lower: Bytes, upper: Bytes) {
    && (forall i, j :: 0 <= i < j < |visited| ==> PairsAscend(visited, i, j))
    && (forall i :: 0 <= i < |visited| ==> PairStored(m, lower, upper, visited[i]))
    && (forall k :: k in m && InRange(k, lower, upper) ==> Visits(visited, k) || k in rest)
    && (forall k, i :: k in rest && 0 <= i < |visited| ==> Less(visited[i].key, k))
    && (forall k :: k in rest ==> k in m && InRange(k, lower, upper))
  }

  lemma {:induction false} VisitNext(visited: seq<Pair>, rest: set<Bytes>, m: map<Bytes, Bytes>, lower: Bytes, upper: Bytes, key: Bytes)
    requires VisitedSoFar(visited, rest, m, lower, upper) && IsLeast(key, rest)
    ensures VisitedSoFar(visited + [Pair(key, m[key])], rest - {key}, m, lower, upper)
  {
    var visited', rest' := visited + [Pair(key, m[key])], rest - {key};
    forall i, j | 0 <= i < j < |visited'| ensures PairsAscend(visited', i, j) {
      if j < |visited| {
        assert PairsAscend(visited, i, j);
      }
    }
    forall k | k in m && InRange(k, lower, upper) ensures Visits(visited', k) || k in rest' {
      if Visits(visited, k) {
        var i :| 0 <= i < |visited| && visited[i].key == k;
        assert visited'[i].key == k;
      } else if k == key {
        assert visited'[|visited|].key == k;
      }
    }
    forall k, i | k in rest' && 0 <= i < |visited'| ensures Less(visited'[i].key, k) {
      LessTotal(k, key);
      assert i < |visited| ==> visited'[i] == visited[i];
    }
  }

  lemma {:induction false} FoundLater(a: seq<Pair>, b: seq<Pair>, m: map<Bytes, Bytes>, lower: Bytes, upper: Bytes, i: nat) returns (j: nat)
    requires IsRange(a, m, lower, upper) && IsRange(b, m, lower, upper)
    requires i < |a| && i <= |b| && a[..i] == b[..i]
    ensures i <= j < |b| && b[j].key == a[i].key
  {
    assert PairStored(m, lower, upper, a[i]) && Visits(b, a[i].key);
    j :| 0 <= j < |b| && b[j].key == a[i].key;
    LessIrreflexive(a[i].key);
    assert forall q :: 0 <= q < i ==> a[..i][q] == a[q] && b[..i][q] == b[q];
    assert j < i ==> PairsAscend(a, j, i);
  }

  lemma {:induction false} SamePrefix(a: seq<Pair>, b: seq<Pair>, m: map<Bytes, Bytes>, lower: Bytes, upper: Bytes, i: nat)
    requires IsRange(a, m, lower, upper) && IsRange(b, m, lower, upper) && i <= |a|
    ensures i <= |b| && a[..i] == b[..i]
  {
    if i > 0 {
      SamePrefix(a, b, m, lower, upper, i - 1);
      var j := FoundLater(a, b, m, lower, upper, i - 1);
      var k := FoundLater(b, a, m, lower, upper, i - 1);
      SameHead(a, b, i - 1, j, k);
      assert PairStored(m, lower, upper, a[i - 1]) && PairStored(m, lower, upper, b[i - 1]);
      assert a[..i] == a[..i - 1] + [a[i - 1]] && b[..i] == b[..i - 1] + [b[i - 1]];
    }
  }

  lemma {:induction false} SameHead(a: seq<Pair>, b: seq<Pair>, i: nat, j: nat, k: nat)
    requires (forall p, q :: 0 <= p < q < |a| ==> PairsAscend(a, p, q)) && forall p, q :: 0 <= p < q < |b| ==> PairsAscend(b, p, q)
    requires i <= j < |b| && i <= k < |a| && b[j].key == a[i].key && a[k].key == b[i].key
    ensures a[i].key == b[i].key
  {
    assert i < j ==> PairsAscend(b, i, j);
    assert i < k ==> PairsAscend(a, i, k);
    LessIrreflexive(a[i].key);
    if Less(a[i].key, b[i].key) && Less(b[i].key, a[i].key) {
      LessTransitive(a[i].key, b[i].key, a[i].key);
    }
  }

  // A listing of a range holds a pair exactly when the key is stored with that value and within
  // the bounds.
  lemma {:induction false} RangePairs(pairs: seq<Pair>, m: map<Bytes, Bytes>, lower: Bytes, upper: Bytes, k: Bytes, v: Bytes)
    requires IsRange(pairs, m, lower, upper)
    ensures Pair(k, v) in pairs <==>
      k in m && v == m[k] && (lower == [] || !Less(k, lower)) && (upper == [] || Less(k, upper))
  {
    if Pair(k, v) in pairs {
      var i :| 0 <= i < |pairs| && pairs[i] == Pair(k, v);
      assert PairStored(m, lower, upper, pairs[i]);
    }
    if k in m && InRange(k, lower, upper) && v == m[k] {
      assert Visits(pairs, k);
      var i :| 0 <= i < |pairs| && pairs[i].key == k;
      assert PairStored(m, lower, upper, pairs[i]) && pairs[i] == Pair(k, v);
    }
  }

  lemma {:induction false} AllRangePairs(pairs: seq<Pair>, m: map<Bytes, Bytes>, lower: Bytes, upper: Bytes)
    requires IsRange(pairs, m, lower, upper)
    ensures forall k, v :: Pair(k, v) in pairs <==>
      k in m && v == m[k] && (lower == [] || !Less(k, lower)) && (upper == [] || Less(k, upper))
    ensures forall i, j :: 0 <= i < j < |pairs| ==> Less(pairs[i].key, pairs[j].key)
  {
    forall i, j | 0 <= i < j < |pairs| ensures Less(pairs[i].key, pairs[j].key) {
      assert PairsAscend(pairs, i, j);
    }
    forall k, v ensures Pair(k, v) in pairs <==>
      k in m && v == m[k] && (lower == [] || !Less(k, lower)) && (upper == [] || Less(k, upper))
    {
      RangePairs(pairs, m, lower, upper, k, v);
    }
  }

  // One listing only fits a range.
  lemma {:induction false} RangeIsUnique(a: seq<Pair>, b: seq<Pair>, m: map<Bytes, Bytes>, lower: Bytes, upper: Bytes)
    requires IsRange(a, m, lower, upper) && IsRange(b, m, lower, upper)
    ensures a == b
  {
    SamePrefix(a, b, m, lower, upper, |a|);
    SamePrefix(b, a, m, lower, upper, |b|);
  }

  datatype Op = Write(key: Bytes, value: Bytes) | Read(key: Bytes) | Range(lower: Bytes, upper: Bytes) | Reopen

  datatype Answer = Answer(ret: RetCode, pairs: seq<Pair>)

  function After(op: Op, m: map<Bytes, Bytes>, capacity: nat): map<Bytes, Bytes> {
    if op.Write? then Written(m, capacity, op.key, op.value) else m
  }

  // The answer a plain string map of bounded size gives.
  ghost predicate AnswerOk(op: Op, answer: Answer, m: map<Bytes, Bytes>, capacity: nat) {
    match op
    case Write(key, value) => answer.ret == WriteCode(m, capacity, key, value)
    case Read(key) =>
      // The empty key, when not stored, reads as the empty value until the table is full: it
      // matches any unused item.
      && answer.ret == (if key in m || (key == [] && |m| < capacity) then Succ else NotFound)
      && (answer.ret == Succ ==> answer.pairs == [Pair(key, if key in m then m[key] else [])])
    case Range(lower, upper) => answer.ret == Succ && IsRange(answer.pairs, m, lower, upper)
    case Reopen => answer.ret == Succ
  }

  ghost predicate Conforms(ops: seq<Op>, answers: seq<Answer>, m: map<Bytes, Bytes>, capacity: nat)
    decreases |ops|
  {
    && |answers| == |ops|
    && (ops != [] ==>
      AnswerOk(ops[0], answers[0], m, capacity) && Conforms(ops[1..], answers[1..], After(ops[0], m, capacity), capacity))
  }

  // A read that one call completes, whatever the key.
  function OneCall(key: Bytes): seq<nat> {
    [SINGLE_FILE_SIZE]
  }

  lemma {:induction false} AllFitIn(e: EngineExample)
    requires e.Valid()
    ensures Enough(OneCall, e.model)
  {
    forall k ensures EnoughFor(OneCall, e.model, k) {
      assert ValueFits(e.model, k);
      SumOne(SINGLE_FILE_SIZE);
    }
  }

  lemma {:induction false} SumOne(n: nat)
    ensures Sum([n]) == n
  {
    assert [n][..0] == [];
  }

  // Performs one operation; re-opening gives another engine on the same directory and table.
  method Perform(e: EngineExample, op: Op) returns (e': EngineExample, answer: Answer)
    requires e.Valid()
    modifies e, e.plate, e.plate.items, e.store, e.store.dir
    ensures e'.Valid() && e'.Capacity() == e.Capacity() && e'.model == After(op, old(e.model), e.Capacity())
    ensures AnswerOk(op, answer, old(e.model), e.Capacity())
    ensures e' == e || fresh({e', e'.plate, e'.store})
    ensures e'.plate.items == e.plate.items && e'.store.dir == e.store.dir
  {
    e' := e;
    if op.Write? {
      SumOne(|op.value|);
      var ret := e.Write(op.key, op.value, [|op.value|]);
      answer := Answer(ret, []);
    } else if op.Read? {
      AllFitIn(e);
      assert EnoughFor(OneCall, e.model, op.key);
      var ret, value := e.Read(op.key, OneCall(op.key));
      answer := Answer(ret, [Pair(op.key, value)]);
    } else if op.Range? {
      AllFitIn(e);
      var ret, visited := e.Range(op.lower, op.upper, OneCall);
      answer := Answer(ret, visited);
    } else {
      e' := new EngineExample.Reopened(e);
      answer := Answer(Succ, []);
    }
  }

  // Any run of writes, reads, range scans and re-openings answers as a string map does.
  method Execute(e: EngineExample, ops: seq<Op>) returns (answers: seq<Answer>)
    requires e.Valid()
    modifies e, e.plate, e.plate.items, e.store, e.store.dir
    ensures Conforms(ops, answers, old(e.model), e.Capacity())
    decreases |ops|
  {
    if ops == [] {
      return [];
    }
    var e', first := Perform(e, ops[0]);
    var rest := Execute(e', ops[1..]);
    answers := [first] + rest;
  }
}
