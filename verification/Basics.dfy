/** Result types and the saturating unsigned arithmetic shared by the models. */
module Basics {

  datatype Option<+T> = None | Some(value: T)

  datatype Result<+T> = Ok(value: T) | Err

  /** An account on either chain; the zero address stands for none. */
  type Address = nat

  const ZERO: Address := 0

  const U32_MAX: nat := 0xFFFF_FFFF
  const U64_MAX: nat := 0xFFFF_FFFF_FFFF_FFFF

  /** `a.saturating_sub(b)` on an unsigned integer. */
  function SatSub(a: nat, b: nat): nat {
    if a < b then 0 else a - b
  }

  /** `a.saturating_add(b)` on a `u64`. */
  function SatAdd64(a: nat, b: nat): nat {
    Min(a + b, U64_MAX)
  }

  function Min(a: nat, b: nat): nat {
    if a <= b then a else b
  }

  function Max(a: nat, b: nat): nat {
    if a <= b then b else a
  }
}

/**
 Strictly ascending sequences of identifiers. They stand for the sorted vectors, B-tree sets and
 bounded heaps of the relayer; `IsFirst` is the reference notion of "the first n in order".
 */
module Ordered {

  ghost predicate Ascending(s: seq<nat>) {
    forall i, j :: 0 <= i < j < |s| ==> s[i] < s[j]
  }

  ghost predicate Distinct<T>(s: seq<T>) {
    forall i, j :: 0 <= i < j < |s| ==> s[i] != s[j]
  }

  ghost function Elements(s: seq<nat>): set<nat> {
    set x | x in s
  }

  /** `w` lists, in ascending order, the `n` smallest members of `from` (all of them if fewer). */
  ghost predicate IsFirst(w: seq<nat>, from: set<nat>, n: nat) {
    && Ascending(w)
    && |w| <= n
    && (forall x :: x in w ==> x in from)
    && (|w| < n ==> forall y :: y in from ==> y in w)
    && (forall x, y :: x in w && y in from && y !in w ==> x < y)
  }

  /** There is only one ascending listing of a set. */
  lemma {:induction false} AscendingUnique(a: seq<nat>, b: seq<nat>)
    requires Ascending(a) && Ascending(b)
    requires forall x :: x in a <==> x in b
    ensures a == b
    decreases |a|
  {
    if a == [] {
      assert forall i :: 0 <= i < |b| ==> b[i] in b;
    } else {
      assert a[0] in b && b != [];
      assert b[0] in a;
      assert a[0] == b[0];
      forall x ensures x in a[1..] <==> x in b[1..] {
        TailMember(a, x);
        TailMember(b, x);
      }
      AscendingUnique(a[1..], b[1..]);
      assert a == [a[0]] + a[1..] && b == [b[0]] + b[1..];
    }
  }

  lemma TailMember(a: seq<nat>, x: nat)
    requires Ascending(a) && a != []
    ensures x in a[1..] <==> x in a && x != a[0]
  {
    if x in a && x != a[0] {
      var i :| 0 <= i < |a| && a[i] == x;
      assert a[1..][i - 1] == x;
    }
  }

  /** The window the reference notion describes is unique, so every way of computing it agrees. */
  lemma IsFirstUnique(v: seq<nat>, w: seq<nat>, from: set<nat>, n: nat)
    requires IsFirst(v, from, n) && IsFirst(w, from, n)
    ensures v == w
  {
    IsFirstIncluded(v, w, from, n);
    IsFirstIncluded(w, v, from, n);
    AscendingUnique(v, w);
  }

  lemma IsFirstIncluded(v: seq<nat>, w: seq<nat>, from: set<nat>, n: nat)
    requires IsFirst(v, from, n) && IsFirst(w, from, n)
    ensures forall x :: x in v ==> x in w
  {
    forall x | x in v ensures x in w {
      if x !in w {
        // All of w lies below x, hence inside v, next to x itself: v would be longer than w.
        assert forall y :: y in w ==> y in v && y != x;
        DistinctCount(v);
        DistinctCount(w);
        SubsetCount(Elements(w) + {x}, Elements(v));
        assert false;
      }
    }
  }

  lemma {:induction false} DistinctCount(s: seq<nat>)
    requires Ascending(s)
    ensures |Elements(s)| == |s|
  {
    if s != [] {
      DistinctCount(s[1..]);
      forall x ensures x in Elements(s) <==> x in Elements(s[1..]) + {s[0]} {
        TailMember(s, x);
      }
      assert Elements(s) == Elements(s[1..]) + {s[0]};
      TailMember(s, s[0]);
    } else {
      assert Elements(s) == {};
    }
  }

  lemma {:induction false} SubsetCount<T>(a: set<T>, b: set<T>)
    requires a <= b
    ensures |a| <= |b|
  {
    if a != {} {
      var x :| x in a;
      SubsetCount(a - {x}, b - {x});
    }
  }

  lemma ConsAscending(x: nat, rest: seq<nat>)
    requires Ascending(rest) && forall y :: y in rest ==> x < y
    ensures Ascending([x] + rest)
  {
    var r := [x] + rest;
    forall i, j | 0 <= i < j < |r| ensures r[i] < r[j] {
      assert r[j] == rest[j - 1] && r[j] in rest;
    }
  }

  /** Ordered insertion; the push of a priority queue kept as an ascending sequence. */
  function Insert(s: seq<nat>, x: nat): (r: seq<nat>)
    ensures forall y :: y in r <==> y in s || y == x
    ensures x !in s ==> |r| == |s| + 1
  {
    if s == [] then [x]
    else if x < s[0] then [x] + s
    else if x == s[0] then s
    else
      assert forall y :: y in s <==> y == s[0] || y in s[1..];
      [s[0]] + Insert(s[1..], x)
  }

  lemma {:induction false} InsertAscending(s: seq<nat>, x: nat)
    requires Ascending(s)
    ensures Ascending(Insert(s, x))
  {
    if s != [] {
      forall y | y in s[1..] ensures s[0] < y { TailMember(s, y); }
      if x < s[0] {
        ConsAscending(x, s);
      } else if x > s[0] {
        InsertAscending(s[1..], x);
        ConsAscending(s[0], Insert(s[1..], x));
      }
    }
  }

  /** Dropping the largest of an ascending listing drops exactly its last entry. */
  lemma DropLast(v: seq<nat>)
    requires Ascending(v) && v != []
    ensures var u, last := v[..|v| - 1], v[|v| - 1];
            Ascending(u) && forall y :: y in u <==> y in v && y < last
  {
    var u, last := v[..|v| - 1], v[|v| - 1];
    forall y ensures y in u <==> y in v && y < last {
      if y in v && y < last {
        var i :| 0 <= i < |v| && v[i] == y;
        assert u[i] == y;
      }
    }
  }

  /** Pushing into a bounded max-heap and dropping its largest entry keeps the first `n`. */
  lemma PushKeepsFirst(w: seq<nat>, from: set<nat>, n: nat, x: nat)
    requires IsFirst(w, from, n) && x !in from
    ensures var v := Insert(w, x);
            IsFirst(if |v| > n then v[..|v| - 1] else v, from + {x}, n)
  {
    var v := Insert(w, x);
    InsertAscending(w, x);
    if |v| > n {
      DropLast(v);
      TrimKeepsFirst(w, from, n, x, v, v[..|v| - 1], v[|v| - 1]);
    }
  }

  lemma TrimKeepsFirst(w: seq<nat>, from: set<nat>, n: nat, x: nat, v: seq<nat>, u: seq<nat>, last: nat)
    requires IsFirst(w, from, n) && |w| == n && |u| == n && Ascending(u)
    requires forall y :: y in v <==> y in w || y == x
    requires last in v && forall y :: y in u <==> y in v && y < last
    requires forall y :: y in v ==> y <= last
    ensures IsFirst(u, from + {x}, n)
  {
    forall y, z | y in u && z in from + {x} && z !in u ensures y < z {
      if z in v {
        assert z == last;
      } else {
        assert last in w || last == x;
      }
    }
  }
}
