/** Sorting as the crate uses it: `sort` and `dedup` on a vector of strings, and the key order
    of a `BTreeMap`. A strictly ascending sequence is the canonical form of a set of strings. */
module Ordering {
  import opened Text

  predicate Ascending(s: seq<string>) {
    forall i, j :: 0 <= i < j < |s| ==> Less(s[i], s[j])
  }

  /** Sorted, with repetitions allowed. */
  predicate Sorted(s: seq<string>) {
    forall i, j :: 0 <= i < j < |s| ==> !Less(s[j], s[i])
  }

  function Elems(s: seq<string>): set<string> {
    set x | x in s
  }

  /** The set that a list of names stands for, each trimmed. */
  function TrimmedAll(names: seq<string>): set<string> {
    set i | 0 <= i < |names| :: Trim(names[i])
  }

  // ---------- sort and dedup ----------

  function Insert(x: string, s: seq<string>): seq<string> {
    if s == [] then [x]
    else if Less(s[0], x) then [s[0]] + Insert(x, s[1..])
    else [x] + s
  }

  function Sort(s: seq<string>): seq<string> {
    if s == [] then [] else Insert(s[0], Sort(s[1..]))
  }

  /** Drops every element equal to the one before it. */
  function Dedup(s: seq<string>): seq<string> {
    if |s| <= 1 then s
    else if s[0] == s[1] then Dedup(s[1..])
    else [s[0]] + Dedup(s[1..])
  }

  lemma NotLessTransitive(a: string, b: string, c: string)
    requires !Less(b, a) && !Less(c, b)
    ensures !Less(c, a)
  {
  }

  lemma {:induction false} InsertElems(x: string, s: seq<string>)
    ensures Elems(Insert(x, s)) == Elems(s) + {x}
  {
    if s != [] && Less(s[0], x) {
      InsertElems(x, s[1..]);
      assert s == [s[0]] + s[1..];
      assert Insert(x, s) == [s[0]] + Insert(x, s[1..]);
      ElemsOfConcat([s[0]], s[1..]);
      ElemsOfConcat([s[0]], Insert(x, s[1..]));
    } else {
      ElemsOfConcat([x], s);
      assert [x] + s == Insert(x, s) || s == [];
    }
  }

  lemma ElemsOfConcat(a: seq<string>, b: seq<string>)
    ensures Elems(a + b) == Elems(a) + Elems(b)
  {
  }

  lemma {:induction false} InsertSorted(x: string, s: seq<string>)
    requires Sorted(s)
    ensures Sorted(Insert(x, s))
  {
    var r := Insert(x, s);
    if s == [] {
    } else if Less(s[0], x) {
      var t := Insert(x, s[1..]);
      InsertSorted(x, s[1..]);
      InsertElems(x, s[1..]);
      forall j | 0 <= j < |t| ensures !Less(t[j], s[0]) {
        assert t[j] in Elems(t);
        if t[j] == x {
          if Less(x, s[0]) {
            LessTransitive(s[0], x, s[0]);
            LessIrreflexive(s[0]);
          }
        } else {
          assert t[j] in s[1..];
        }
      }
      PrependSorted(s[0], t);
    } else {
      forall j | 0 <= j < |s| ensures !Less(s[j], x) {
        LessIrreflexive(s[0]);
        NotLessTransitive(x, s[0], s[j]);
      }
      PrependSorted(x, s);
    }
  }

  lemma PrependSorted(x: string, s: seq<string>)
    requires Sorted(s)
    requires forall j :: 0 <= j < |s| ==> !Less(s[j], x)
    ensures Sorted([x] + s)
  {
  }

  lemma PrependAscending(x: string, s: seq<string>)
    requires Ascending(s)
    requires forall j :: 0 <= j < |s| ==> Less(x, s[j])
    ensures Ascending([x] + s)
  {
  }

  lemma {:induction false} SortIsSorted(s: seq<string>)
    ensures Sorted(Sort(s)) && Elems(Sort(s)) == Elems(s)
  {
    if s != [] {
      SortIsSorted(s[1..]);
      InsertSorted(s[0], Sort(s[1..]));
      InsertElems(s[0], Sort(s[1..]));
      assert s == [s[0]] + s[1..];
      ElemsOfConcat([s[0]], s[1..]);
    }
  }

  lemma {:induction false} DedupIsAscending(s: seq<string>)
    requires Sorted(s)
    ensures Ascending(Dedup(s)) && Elems(Dedup(s)) == Elems(s)
  {
    if |s| > 1 {
      var d := Dedup(s[1..]);
      DedupIsAscending(s[1..]);
      assert s == [s[0]] + s[1..];
      ElemsOfConcat([s[0]], s[1..]);
      if s[0] == s[1] {
        assert s[1..][0] == s[0];
      } else {
        ElemsOfConcat([s[0]], d);
        forall j | 0 <= j < |d| ensures Less(s[0], d[j]) {
          assert d[j] in Elems(s[1..]);
          var k :| 0 <= k < |s[1..]| && s[1..][k] == d[j];
          assert s[k + 1] == d[j];
          LessTotal(s[0], s[1]);
          LessTotal(s[1], s[k + 1]);
          if k > 0 && s[1] != s[k + 1] {
            LessTransitive(s[0], s[1], s[k + 1]);
          }
        }
        PrependAscending(s[0], d);
      }
    }
  }

  lemma SortDedup(s: seq<string>)
    ensures Ascending(Dedup(Sort(s))) && Elems(Dedup(Sort(s))) == Elems(s)
  {
    SortIsSorted(s);
    DedupIsAscending(Sort(s));
  }

  // ---------- canonical form ----------

  lemma AscendingHead(s: seq<string>)
    requires Ascending(s) && s != []
    ensures Ascending(s[1..])
    ensures Elems(s[1..]) == Elems(s) - {s[0]}
  {
    LessIrreflexive(s[0]);
    assert s == [s[0]] + s[1..];
    ElemsOfConcat([s[0]], s[1..]);
    assert s[0] !in s[1..];
  }

  /** There is one strictly ascending sequence for a set of strings. */
  lemma {:induction false} AscendingUnique(a: seq<string>, b: seq<string>)
    requires Ascending(a) && Ascending(b) && Elems(a) == Elems(b)
    ensures a == b
  {
    assert a != [] ==> a[0] in Elems(a);
    assert b != [] ==> b[0] in Elems(b);
    if a != [] && b != [] {
      if a[0] != b[0] {
        assert a[0] in Elems(b) && b[0] in Elems(a);
        assert Less(b[0], a[0]) && Less(a[0], b[0]);
        LessTransitive(a[0], b[0], a[0]);
        LessIrreflexive(a[0]);
      }
      AscendingHead(a);
      AscendingHead(b);
      AscendingUnique(a[1..], b[1..]);
      assert a == [a[0]] + a[1..] && b == [b[0]] + b[1..];
    }
  }

  // ---------- the key order of a BTreeMap ----------

  predicate IsLeast(m: string, s: set<string>) {
    m in s && forall k :: k in s && k != m ==> Less(m, k)
  }

  lemma {:induction false} LeastExists(s: set<string>)
    requires s != {}
    ensures exists m :: IsLeast(m, s)
  {
    var x :| x in s;
    if s == {x} {
      assert IsLeast(x, s);
    } else {
      var rest := s - {x};
      assert s == rest + {x};
      LeastExists(rest);
      var r :| IsLeast(r, rest);
      LessTotal(x, r);
      if Less(x, r) {
        forall k | k in s && k != x ensures Less(x, k) {
          if k != r {
            LessTransitive(x, r, k);
          }
        }
        assert IsLeast(x, s);
      } else {
        assert IsLeast(r, s);
      }
    }
  }

  lemma LeastUnique(a: string, b: string, s: set<string>)
    requires IsLeast(a, s) && IsLeast(b, s)
    ensures a == b
  {
    if a != b {
      LessTransitive(a, b, a);
      LessIrreflexive(a);
    }
  }

  function Least(s: set<string>): (m: string)
    requires s != {}
    ensures IsLeast(m, s)
  {
    LeastExists(s);
    assert forall a, b :: IsLeast(a, s) && IsLeast(b, s) ==> a == b by {
      forall a, b | IsLeast(a, s) && IsLeast(b, s) ensures a == b {
        LeastUnique(a, b, s);
      }
    }
    var m :| IsLeast(m, s);
    m
  }

  /** The keys of a map in the order in which it is iterated. */
  function InOrder(s: set<string>): (keys: seq<string>)
    ensures Elems(keys) == s
  {
    if s == {} then []
    else
      var m := Least(s);
      var rest := InOrder(s - {m});
      assert Elems([m] + rest) == s by {
        ElemsOfConcat([m], rest);
      }
      [m] + rest
  }

  lemma {:induction false} InOrderAscending(s: set<string>)
    ensures Ascending(InOrder(s))
  {
    if s != {} {
      var m := Least(s);
      var rest := InOrder(s - {m});
      InOrderAscending(s - {m});
      forall j | 0 <= j < |rest| ensures Less(m, rest[j]) {
        assert rest[j] in Elems(rest);
      }
      PrependAscending(m, rest);
    }
  }

  lemma InOrderElems(s: set<string>)
    ensures forall k :: k in InOrder(s) <==> k in s
  {
  }
}
