/** The canonical form of a JSON document, as `json.dumps(..., sort_keys=True)` sees it. */
module CanonicalJson {
  import opened Models

  // ----- Sorting by name, at every depth -----

  /** The order of `sort_keys`: lexicographic by code point. */
  predicate AtMost(a: string, b: string) {
    a == "" || (b != "" && (a[0] < b[0] || (a[0] == b[0] && AtMost(a[1..], b[1..]))))
  }

  function Insert(m: Member, ms: seq<Member>): seq<Member> {
    if ms == [] || AtMost(m.name, ms[0].name) then [m] + ms else [ms[0]] + Insert(m, ms[1..])
  }

  function Sort(ms: seq<Member>): seq<Member> {
    if ms == [] then [] else Insert(ms[0], Sort(ms[1..]))
  }

  /** What `json.dumps(..., sort_keys=True)` sees: members sorted by name, at every depth. */
  function Canonical(v: Json): Json {
    match v
    case Object(members) => Object(Sort(CanonicalMembers(members)))
    case Array(items) => Array(CanonicalItems(items))
    case _ => v
  }

  function CanonicalMembers(ms: seq<Member>): (cs: seq<Member>)
    ensures |cs| == |ms|
    ensures forall i :: 0 <= i < |ms| ==> cs[i] == Member(ms[i].name, Canonical(ms[i].value))
  {
    if ms == [] then [] else [Member(ms[0].name, Canonical(ms[0].value))] + CanonicalMembers(ms[1..])
  }

  function CanonicalItems(vs: seq<Json>): (cs: seq<Json>)
    ensures |cs| == |vs|
    ensures forall i :: 0 <= i < |vs| ==> cs[i] == Canonical(vs[i])
  {
    if vs == [] then [] else [Canonical(vs[0])] + CanonicalItems(vs[1..])
  }

  // ----- The order of members does not matter -----

  /** The names of every object are distinct, as the keys of a dictionary are. */
  predicate WellFormed(v: Json) {
    match v
    case Object(members) => DistinctNames(members) && forall m | m in members :: WellFormed(m.value)
    case Array(items) => forall x | x in items :: WellFormed(x)
    case _ => true
  }

  /** The same document, up to the order of members at every depth. */
  predicate SameDocument(v: Json, w: Json)
    decreases v
  {
    match v
    case Object(a) =>
      w.Object? && |a| == |w.members| &&
      forall m | m in a :: Get(w.members, m.name).Some? && SameDocument(m.value, Get(w.members, m.name).value)
    case Array(xs) =>
      w.Array? && |xs| == |w.items| && forall i | 0 <= i < |xs| :: SameDocument(xs[i], w.items[i])
    case _ => v == w
  }

  lemma {:induction false} AtMostTotal(a: string, b: string)
    ensures AtMost(a, b) || AtMost(b, a)
    ensures AtMost(a, b) && AtMost(b, a) ==> a == b
  {
    if a != "" && b != "" {
      AtMostTotal(a[1..], b[1..]);
      assert a == [a[0]] + a[1..] && b == [b[0]] + b[1..];
    }
  }

  /** `a` is a prefix of `b`, or has the smaller letter where they first differ. */
  lemma {:induction false} AtMostIff(a: string, b: string)
    ensures AtMost(a, b) <==> a <= b || exists i :: Differ(a, b, i) && a[i] < b[i]
  {
    if a != "" && b != "" {
      var a', b' := a[1..], b[1..];
      AtMostIff(a', b');
      assert a == [a[0]] + a' && b == [b[0]] + b';
      if a[0] == b[0] {
        forall i: int
          ensures Differ(a, b, i + 1) && i >= 0 <==> Differ(a', b', i)
        {
          if 0 <= i < |a'| && i < |b'| {
            assert a[..i + 1] == [a[0]] + a'[..i] && b[..i + 1] == [b[0]] + b'[..i];
            assert a'[..i] == a[..i + 1][1..] && b'[..i] == b[..i + 1][1..];
          }
        }
        if i :| Differ(a', b', i) && a'[i] < b'[i] {
          assert Differ(a, b, i + 1);
        }
        if i :| Differ(a, b, i) && a[i] < b[i] {
          assert Differ(a', b', i - 1);
        }
      } else {
        assert a[..0] == b[..0] == "";
        assert Differ(a, b, 0);
        forall i: int
          ensures Differ(a, b, i) ==> i == 0
        {
          if Differ(a, b, i) && i > 0 {
            SameFirst(a, b, i);
          }
        }
      }
    }
  }

  lemma SameFirst(a: string, b: string, i: int)
    requires Differ(a, b, i) && i > 0
    ensures a[0] == b[0]
  {
    assert a[..i][0] == a[0] && b[..i][0] == b[0];
  }

  predicate Differ(a: string, b: string, i: int) {
    0 <= i < |a| && i < |b| && a[..i] == b[..i] && a[i] != b[i]
  }

  lemma {:induction false} InsertSorted(m: Member, ms: seq<Member>)
    requires Sorted(ms)
    ensures Sorted(Insert(m, ms)) && forall x :: x in Insert(m, ms) <==> x == m || x in ms
  {
    if ms != [] && !AtMost(m.name, ms[0].name) {
      AtMostTotal(m.name, ms[0].name);
      InsertSorted(m, ms[1..]);
      assert ms == [ms[0]] + ms[1..];
      var rest := Insert(m, ms[1..]);
      forall k | 0 <= k < |rest|
        ensures AtMost(ms[0].name, rest[k].name)
      {
        assert rest[k] == m || rest[k] in ms[1..];
        if rest[k] in ms[1..] {
          var i :| 0 <= i < |ms[1..]| && ms[1..][i] == rest[k];
          assert ms[i + 1] == rest[k];
        }
      }
    } else if ms != [] {
      forall k | 0 <= k < |ms|
        ensures AtMost(m.name, ms[k].name)
      {
        if k > 0 {
          AtMostTransitive(m.name, ms[0].name, ms[k].name);
        }
      }
    }
  }

  predicate Sorted(ms: seq<Member>) {
    forall i, j :: 0 <= i < j < |ms| ==> AtMost(ms[i].name, ms[j].name)
  }

  /** The members come out in the order of their names. */
  lemma {:induction false} SortIsSorted(ms: seq<Member>)
    ensures Sorted(Sort(ms))
  {
    if ms != [] {
      SortIsSorted(ms[1..]);
      InsertSorted(ms[0], Sort(ms[1..]));
    }
  }

  lemma {:induction false} AtMostTransitive(a: string, b: string, c: string)
    requires AtMost(a, b) && AtMost(b, c)
    ensures AtMost(a, c)
  {
    if a != "" && a[0] == b[0] == c[0] {
      AtMostTransitive(a[1..], b[1..], c[1..]);
    }
  }

  lemma {:induction false} InsertsCommute(x: Member, y: Member, ms: seq<Member>)
    requires x.name != y.name
    ensures Insert(x, Insert(y, ms)) == Insert(y, Insert(x, ms))
  {
    AtMostTotal(x.name, y.name);
    if ms != [] {
      InsertsCommute(x, y, ms[1..]);
      var n := ms[0].name;
      if AtMost(x.name, y.name) && AtMost(y.name, n) {
        AtMostTransitive(x.name, y.name, n);
      }
      if AtMost(y.name, x.name) && AtMost(x.name, n) {
        AtMostTransitive(y.name, x.name, n);
      }
    }
  }

  /** Sorting puts `x` where it belongs, wherever it was. */
  lemma {:induction false} SortMoves(front: seq<Member>, x: Member, back: seq<Member>)
    requires forall m :: m in front ==> m.name != x.name
    ensures Sort(front + [x] + back) == Insert(x, Sort(front + back))
  {
    var all := front + [x] + back;
    if front == [] {
      assert all == [x] + back && front + back == back;
    } else {
      var m := front[0];
      assert all[1..] == front[1..] + [x] + back && (front + back)[1..] == front[1..] + back;
      SortMoves(front[1..], x, back);
      InsertsCommute(x, m, Sort(front[1..] + back));
    }
  }

  predicate DistinctNames(ms: seq<Member>) {
    forall i, j :: 0 <= i < j < |ms| ==> ms[i].name != ms[j].name
  }

  lemma CancelOne(rest: seq<Member>, front: seq<Member>, x: Member, back: seq<Member>)
    requires multiset([x] + rest) == multiset(front + [x] + back)
    ensures multiset(rest) == multiset(front + back)
  {
    assert multiset(rest) == multiset([x] + rest) - multiset{x};
    assert multiset(front + back) == multiset(front + [x] + back) - multiset{x};
  }

  lemma SplitAt(b: seq<Member>, x: Member) returns (front: seq<Member>, back: seq<Member>)
    requires x in b && DistinctNames(b)
    ensures b == front + [x] + back && DistinctNames(front + back)
    ensures forall m :: m in front ==> m.name != x.name
  {
    var i :| 0 <= i < |b| && b[i] == x;
    front, back := b[..i], b[i + 1..];
  }

  lemma {:induction false} SortIgnoresOrder(a: seq<Member>, b: seq<Member>)
    requires multiset(a) == multiset(b) && DistinctNames(b)
    ensures Sort(a) == Sort(b)
  {
    if a == [] {
      assert |multiset(b)| == 0;
      assert b == [];
    } else {
      var x, rest := a[0], a[1..];
      assert a == [x] + rest;
      assert x in multiset(b);
      var front, back := SplitAt(b, x);
      CancelOne(rest, front, x, back);
      SortIgnoresOrder(rest, front + back);
      SortMoves(front, x, back);
    }
  }

  lemma {:induction false} SortPermutes(ms: seq<Member>)
    ensures multiset(Sort(ms)) == multiset(ms)
  {
    if ms != [] {
      SortPermutes(ms[1..]);
      InsertPermutes(ms[0], Sort(ms[1..]));
      assert ms == [ms[0]] + ms[1..];
    }
  }

  lemma {:induction false} InsertPermutes(m: Member, ms: seq<Member>)
    ensures multiset(Insert(m, ms)) == multiset(ms) + multiset{m}
  {
    if ms != [] && !AtMost(m.name, ms[0].name) {
      InsertPermutes(m, ms[1..]);
      assert ms == [ms[0]] + ms[1..];
    }
  }

  lemma {:induction false} GetIs(ms: seq<Member>, m: Member)
    requires DistinctNames(ms) && m in ms
    ensures Get(ms, m.name) == Some(m.value)
  {
    if ms[0] != m {
      GetIs(ms[1..], m);
      var i :| 0 <= i < |ms| && ms[i] == m;
      assert ms[0].name != ms[i].name;
    }
  }

  lemma RestIn(a: seq<Member>, front: seq<Member>, back: seq<Member>)
    requires a != [] && DistinctNames(a) && forall m :: m in a ==> m in front + [a[0]] + back
    ensures DistinctNames(a[1..]) && forall m :: m in a[1..] ==> m in front + back
  {
    forall m | m in a[1..]
      ensures m in front + back
    {
      var i :| 0 <= i < |a[1..]| && a[1..][i] == m;
      assert a[i + 1] == m && a[0].name != a[i + 1].name;
      assert m in a;
    }
  }

  /** As many members, each in the other list, and no name twice: the same members. */
  lemma {:induction false} SameMembers(a: seq<Member>, b: seq<Member>)
    requires DistinctNames(a) && DistinctNames(b) && |a| == |b|
    requires forall m :: m in a ==> m in b
    ensures multiset(a) == multiset(b)
  {
    if a == [] {
      assert b == [];
    } else {
      var x := a[0];
      var front, back := SplitAt(b, x);
      RestIn(a, front, back);
      SameMembers(a[1..], front + back);
      assert a == [x] + a[1..];
      assert multiset(front + [x] + back) == multiset(front + back) + multiset{x};
    }
  }

  lemma SortedAlike(a: seq<Member>, b: seq<Member>)
    requires DistinctNames(a) && DistinctNames(b)
    ensures Sort(a) == Sort(b) <==> |a| == |b| && forall m :: m in a ==> m in b
  {
    if Sort(a) == Sort(b) {
      SortPermutes(a);
      SortPermutes(b);
      assert |a| == |multiset(a)| && |b| == |multiset(b)|;
      assert forall m :: m in a ==> m in multiset(b);
    } else if |a| == |b| && forall m :: m in a ==> m in b {
      SameMembers(a, b);
      SortIgnoresOrder(a, b);
    }
  }

  /** `m` has its like, in canonical form, in `b` iff `b` has a member of that name with a like value. */
  lemma LikeMember(m: Member, b: seq<Member>)
    requires DistinctNames(b)
    ensures Member(m.name, Canonical(m.value)) in CanonicalMembers(b) <==>
            Get(b, m.name).Some? && Canonical(Get(b, m.name).value) == Canonical(m.value)
  {
    var cs := CanonicalMembers(b);
    if Member(m.name, Canonical(m.value)) in cs {
      var i :| 0 <= i < |cs| && cs[i] == Member(m.name, Canonical(m.value));
      GetIs(b, b[i]);
    }
    if Get(b, m.name).Some? {
      var i :| 0 <= i < |b| && b[i] == Member(m.name, Get(b, m.name).value);
      assert cs[i] == Member(m.name, Canonical(b[i].value));
    }
  }

  lemma ObjectsAlike(a: seq<Member>, b: seq<Member>)
    requires DistinctNames(a) && DistinctNames(b)
    ensures Canonical(Object(a)) == Canonical(Object(b)) <==>
            && |a| == |b|
            && forall m :: m in a ==> Get(b, m.name).Some? && Canonical(Get(b, m.name).value) == Canonical(m.value)
  {
    var ca, cb := CanonicalMembers(a), CanonicalMembers(b);
    SortedAlike(ca, cb);
    forall m | m in a
      ensures Member(m.name, Canonical(m.value)) in cb <==>
              Get(b, m.name).Some? && Canonical(Get(b, m.name).value) == Canonical(m.value)
    {
      LikeMember(m, b);
    }
    forall m | m in a
      ensures Member(m.name, Canonical(m.value)) in ca
    {
      var i :| 0 <= i < |a| && a[i] == m;
      assert ca[i] == Member(m.name, Canonical(m.value));
    }
    forall c | c in ca
      ensures exists m :: m in a && c == Member(m.name, Canonical(m.value))
    {
      var i :| 0 <= i < |ca| && ca[i] == c;
      assert a[i] in a;
    }
  }

  lemma ItemsAlike(xs: seq<Json>, ys: seq<Json>)
    ensures Canonical(Array(xs)) == Canonical(Array(ys)) <==>
            |xs| == |ys| && forall i :: 0 <= i < |xs| ==> Canonical(xs[i]) == Canonical(ys[i])
  {
    var cx, cy := CanonicalItems(xs), CanonicalItems(ys);
    if |xs| == |ys| && forall i :: 0 <= i < |xs| ==> Canonical(xs[i]) == Canonical(ys[i]) {
      assert cx == cy;
    }
  }

  /** Two documents have one canonical form iff they are the same up to member order at every depth. */
  lemma {:induction false} CanonicalIffSame(v: Json, w: Json)
    requires WellFormed(v) && WellFormed(w)
    ensures Canonical(v) == Canonical(w) <==> SameDocument(v, w)
    decreases v
  {
    if v.Object? && w.Object? {
      ObjectsAlike(v.members, w.members);
      forall m | m in v.members && Get(w.members, m.name).Some?
        ensures Canonical(m.value) == Canonical(Get(w.members, m.name).value) <==>
                SameDocument(m.value, Get(w.members, m.name).value)
      {
        CanonicalIffSame(m.value, Get(w.members, m.name).value);
      }
    } else if v.Array? && w.Array? {
      ItemsAlike(v.items, w.items);
      forall i | 0 <= i < |v.items| && |v.items| == |w.items|
        ensures Canonical(v.items[i]) == Canonical(w.items[i]) <==> SameDocument(v.items[i], w.items[i])
      {
        CanonicalIffSame(v.items[i], w.items[i]);
      }
    }
  }
}
