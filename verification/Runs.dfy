/** What any run of the example engine answers, said of the operations and answers alone. */
module ExampleRuns {
  import opened ByteStrings
  import opened EngineTypes
  import opened DataStores
  import opened DoorPlates
  import opened ExampleEngines

  // Operation k is a write of the key, and it succeeded.
  ghost predicate Wrote(ops: seq<Op>, answers: seq<Answer>, k: nat, key: Bytes)
    requires k < |ops| == |answers|
  {
    ops[k].Write? && ops[k].key == key && answers[k].ret == Succ
  }

  // No write of the key succeeded from lo up to hi.
  ghost predicate NoneWrote(ops: seq<Op>, answers: seq<Answer>, lo: nat, hi: nat, key: Bytes)
    requires hi <= |ops| == |answers|
  {
    forall k :: lo <= k < hi ==> !Wrote(ops, answers, k, key)
  }

  // The map after the first j operations.
  function StateAt(ops: seq<Op>, j: nat, m: map<Bytes, Bytes>, capacity: nat): map<Bytes, Bytes>
    requires j <= |ops|
    decreases j
  {
    if j == 0 then m else StateAt(ops[1..], j - 1, After(ops[0], m, capacity), capacity)
  }

  lemma {:induction false} AnswerAt(ops: seq<Op>, answers: seq<Answer>, m: map<Bytes, Bytes>, capacity: nat, j: nat)
    requires Conforms(ops, answers, m, capacity) && j < |ops|
    ensures |answers| == |ops| && AnswerOk(ops[j], answers[j], StateAt(ops, j, m, capacity), capacity)
    decreases j
  {
    if j > 0 {
      AnswerAt(ops[1..], answers[1..], After(ops[0], m, capacity), capacity, j - 1);
    }
  }

  // Only a write that succeeds changes the map, at its key.
  lemma {:induction false} StateNext(ops: seq<Op>, answers: seq<Answer>, m: map<Bytes, Bytes>, capacity: nat, j: nat)
    requires Conforms(ops, answers, m, capacity) && j < |ops|
    ensures var s, s' := StateAt(ops, j, m, capacity), StateAt(ops, j + 1, m, capacity);
            s' == if ops[j].Write? && answers[j].ret == Succ then s[ops[j].key := ops[j].value] else s
    decreases j
  {
    if j > 0 {
      StateNext(ops[1..], answers[1..], After(ops[0], m, capacity), capacity, j - 1);
    }
  }

  lemma {:induction false} Untouched(ops: seq<Op>, answers: seq<Answer>, m: map<Bytes, Bytes>, capacity: nat, i: nat, j: nat, key: Bytes)
    requires Conforms(ops, answers, m, capacity) && i <= j <= |ops| && NoneWrote(ops, answers, i, j, key)
    ensures var s, s' := StateAt(ops, i, m, capacity), StateAt(ops, j, m, capacity);
            (key in s' <==> key in s) && (key in s ==> s'[key] == s[key])
    decreases j
  {
    if i < j {
      Untouched(ops, answers, m, capacity, i, j - 1, key);
      StateNext(ops, answers, m, capacity, j - 1);
      assert !Wrote(ops, answers, j - 1, key);
    }
  }

  lemma {:induction false} LastWritten(ops: seq<Op>, answers: seq<Answer>, m: map<Bytes, Bytes>, capacity: nat, i: nat, j: nat)
    requires Conforms(ops, answers, m, capacity) && i < j <= |ops|
    requires ops[i].Write? && answers[i].ret == Succ && NoneWrote(ops, answers, i + 1, j, ops[i].key)
    ensures var s := StateAt(ops, j, m, capacity); ops[i].key in s && s[ops[i].key] == ops[i].value
  {
    StateNext(ops, answers, m, capacity, i);
    Untouched(ops, answers, m, capacity, i + 1, j, ops[i].key);
  }

  // A read answers the value of the key's last successful write, whatever lies between.
  lemma {:induction false} ReadsLastWritten(ops: seq<Op>, answers: seq<Answer>, m: map<Bytes, Bytes>, capacity: nat, i: nat, j: nat)
    requires Conforms(ops, answers, m, capacity) && i < j < |ops|
    requires ops[i].Write? && answers[i].ret == Succ && NoneWrote(ops, answers, i + 1, j, ops[i].key)
    requires ops[j] == Op.Read(ops[i].key)
    ensures answers[j] == Answer(Succ, [Pair(ops[i].key, ops[i].value)])
  {
    LastWritten(ops, answers, m, capacity, i, j);
    AnswerAt(ops, answers, m, capacity, j);
  }

  // A key not held at the start and never written is not found.
  lemma {:induction false} UnwrittenNotFound(ops: seq<Op>, answers: seq<Answer>, m: map<Bytes, Bytes>, capacity: nat, j: nat)
    requires Conforms(ops, answers, m, capacity) && j < |ops| && ops[j].Read? && ops[j].key != []
    requires ops[j].key !in m && NoneWrote(ops, answers, 0, j, ops[j].key)
    ensures answers[j].ret == NotFound
  {
    Untouched(ops, answers, m, capacity, 0, j, ops[j].key);
    AnswerAt(ops, answers, m, capacity, j);
  }

  // A range scan shows a key with the value of its last successful write exactly when the key
  // is within the bounds, and never with another value.
  lemma {:induction false} RangeShowsLastWritten(ops: seq<Op>, answers: seq<Answer>, m: map<Bytes, Bytes>, capacity: nat, i: nat, j: nat,
                                                 v: Bytes)
    requires Conforms(ops, answers, m, capacity) && i < j < |ops| && ops[j].Range?
    requires ops[i].Write? && answers[i].ret == Succ && NoneWrote(ops, answers, i + 1, j, ops[i].key)
    ensures var k, lower, upper := ops[i].key, ops[j].lower, ops[j].upper;
            Pair(k, v) in answers[j].pairs <==>
              v == ops[i].value && (lower == [] || !Less(k, lower)) && (upper == [] || Less(k, upper))
    ensures forall p, q :: 0 <= p < q < |answers[j].pairs| ==> Less(answers[j].pairs[p].key, answers[j].pairs[q].key)
  {
    LastWritten(ops, answers, m, capacity, i, j);
    AnswerAt(ops, answers, m, capacity, j);
    AllRangePairs(answers[j].pairs, StateAt(ops, j, m, capacity), ops[j].lower, ops[j].upper);
  }

  // A range scan shows no key that was not held at the start and never written.
  lemma {:induction false} RangeShowsNoOther(ops: seq<Op>, answers: seq<Answer>, m: map<Bytes, Bytes>, capacity: nat, j: nat, p: Pair)
    requires Conforms(ops, answers, m, capacity) && j < |ops| && ops[j].Range?
    requires p.key !in m && NoneWrote(ops, answers, 0, j, p.key)
    ensures p !in answers[j].pairs
  {
    Untouched(ops, answers, m, capacity, 0, j, p.key);
    AnswerAt(ops, answers, m, capacity, j);
    RangePairs(answers[j].pairs, StateAt(ops, j, m, capacity), ops[j].lower, ops[j].upper, p.key, p.value);
  }

  // The keys successfully written in the first j operations.
  function KeysWritten(ops: seq<Op>, answers: seq<Answer>, j: nat): set<Bytes>
    requires j <= |ops| == |answers|
  {
    if j == 0 then {}
    else if ops[j - 1].Write? && answers[j - 1].ret == Succ then KeysWritten(ops, answers, j - 1) + {ops[j - 1].key}
    else KeysWritten(ops, answers, j - 1)
  }

  lemma {:induction false} InKeysWritten(ops: seq<Op>, answers: seq<Answer>, j: nat, key: Bytes)
    requires j <= |ops| == |answers|
    ensures key in KeysWritten(ops, answers, j) <==> exists k :: 0 <= k < j && Wrote(ops, answers, k, key)
  {
    if j > 0 {
      InKeysWritten(ops, answers, j - 1, key);
      assert Wrote(ops, answers, j - 1, key) ==> key in KeysWritten(ops, answers, j);
    }
  }

  lemma {:induction false} KeysHeld(ops: seq<Op>, answers: seq<Answer>, m: map<Bytes, Bytes>, capacity: nat, j: nat)
    requires Conforms(ops, answers, m, capacity) && j <= |ops|
    ensures StateAt(ops, j, m, capacity).Keys == m.Keys + KeysWritten(ops, answers, j)
    decreases j
  {
    if j > 0 {
      KeysHeld(ops, answers, m, capacity, j - 1);
      StateNext(ops, answers, m, capacity, j - 1);
    }
  }

  // Exactly when a write is refused: its value or key is too long, or its key is new and as
  // many keys as the table has items are held already.
  lemma {:induction false} WriteRefused(ops: seq<Op>, answers: seq<Answer>, m: map<Bytes, Bytes>, capacity: nat, j: nat)
    requires Conforms(ops, answers, m, capacity) && j < |ops| && ops[j].Write?
    ensures var held := m.Keys + KeysWritten(ops, answers, j);
            answers[j].ret ==
              if |ops[j].value| > SINGLE_FILE_SIZE || |ops[j].key| > MAX_KEY_LEN then InvalidArgument
              else if ops[j].key !in held && |held| == capacity then Full
              else Succ
  {
    var s := StateAt(ops, j, m, capacity);
    AnswerAt(ops, answers, m, capacity, j);
    KeysHeld(ops, answers, m, capacity, j);
    assert |s| == |s.Keys|;
  }
}
