/** Byte strings in the order std::string compares them: byte by byte, a prefix first. */
module ByteStrings {
  import opened Keys

  type Bytes = seq<Byte>

  predicate Less(a: Bytes, b: Bytes) {
    b != [] && (a == [] || a[0] < b[0] || (a[0] == b[0] && Less(a[1..], b[1..])))
  }

  // Up to some place the strings agree, and there the first one ends, or has the smaller byte.
  lemma {:induction false} LessIs(a: Bytes, b: Bytes)
    ensures Less(a, b) <==>
      exists i :: 0 <= i <= |a| && i <= |b| && a[..i] == b[..i] && ((i == |a| && i < |b|) || (i < |a| && i < |b| && a[i] < b[i]))
  {
    if Less(a, b) {
      var i := LessDiffers(a, b);
      assert a[..i] == b[..i];
    }
    if i :| 0 <= i <= |a| && i <= |b| && a[..i] == b[..i] && ((i == |a| && i < |b|) || (i < |a| && i < |b| && a[i] < b[i])) {
      DiffersLess(a, b, i);
    }
  }

  lemma {:induction false} LessDiffers(a: Bytes, b: Bytes) returns (i: nat)
    requires Less(a, b)
    ensures i <= |a| && i < |b| && a[..i] == b[..i] && (i == |a| || a[i] < b[i])
  {
    if a != [] && a[0] == b[0] {
      var k := LessDiffers(a[1..], b[1..]);
      i := k + 1;
      assert a[..i] == [a[0]] + a[1..][..k] && b[..i] == [b[0]] + b[1..][..k];
    } else {
      i := 0;
    }
  }

  lemma {:induction false} DiffersLess(a: Bytes, b: Bytes, i: nat)
    requires i <= |a| && i < |b| && a[..i] == b[..i] && (i == |a| || a[i] < b[i])
    ensures Less(a, b)
  {
    if i > 0 {
      assert a[0] == a[..i][0] == b[..i][0] == b[0];
      assert a[1..][..i - 1] == a[..i][1..] && b[1..][..i - 1] == b[..i][1..];
      DiffersLess(a[1..], b[1..], i - 1);
    }
  }

  // For strings of one length it is the order the packed keys have.
  lemma {:induction false} LessIsLexLess(a: Bytes, b: Bytes)
    requires |a| == |b|
    ensures Less(a, b) <==> LexLess(a, b)
    ensures Less(a, b) <==> BigEndian(a) < BigEndian(b)
  {
    BigEndianOrder(a, b);
    if Less(a, b) {
      var i := LessDiffers(a, b);
      assert i < |a| && a[i] < b[i] && a[..i] == b[..i];
    }
    if i :| 0 <= i < |a| && a[i] < b[i] && a[..i] == b[..i] {
      DiffersLess(a, b, i);
    }
  }

  lemma {:induction false} LessIrreflexive(a: Bytes)
    ensures !Less(a, a)
  {
    if a != [] {
      LessIrreflexive(a[1..]);
    }
  }

  lemma {:induction false} LessTransitive(a: Bytes, b: Bytes, c: Bytes)
    requires Less(a, b) && Less(b, c)
    ensures Less(a, c)
  {
    if a != [] && a[0] == b[0] == c[0] {
      LessTransitive(a[1..], b[1..], c[1..]);
    }
  }

  lemma {:induction false} LessTotal(a: Bytes, b: Bytes)
    ensures a == b || Less(a, b) || Less(b, a)
  {
    if a != [] && b != [] && a[0] == b[0] {
      LessTotal(a[1..], b[1..]);
    }
  }

  ghost predicate IsLeast(k: Bytes, keys: set<Bytes>) {
    k in keys && forall j :: j in keys ==> !Less(j, k)
  }

  lemma {:induction false} LeastExists(keys: set<Bytes>) returns (k: Bytes)
    requires keys != {}
    ensures IsLeast(k, keys)
    decreases |keys|
  {
    var any :| any in keys;
    var rest := keys - {any};
    if rest == {} {
      LessIrreflexive(any);
      k := any;
      assert forall j :: j in keys ==> j == any || j in rest;
    } else {
      var m := LeastExists(rest);
      LessIrreflexive(any);
      if Less(any, m) {
        k := any;
        forall j | j in keys ensures !Less(j, any) {
          if Less(j, any) {
            LessTransitive(j, any, m);
          }
        }
      } else {
        k := m;
        assert forall j :: j in keys ==> j == any || j in rest;
      }
    }
  }
}

/** What the example engine's layers hand each other. */
module EngineTypes {
  datatype RetCode = Succ | NotFound | InvalidArgument | IOError | Full | OutOfMemory

  // Where a value lies in the value log.
  datatype Location = Location(fileNo: nat, offset: nat, len: nat)
}
