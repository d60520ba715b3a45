/** Small shared vocabulary: an optional value, and the facts about
    sequences and the sets built from them that both the routing table
    (a dict with ordered keys) and the configuration validator (which
    detects duplicates by comparing a set's size with a list's length) rely on. */
module Common {

  datatype Option<+T> = None | Some(value: T)

  /** No element occurs twice. */
  ghost predicate Distinct<T>(s: seq<T>) {
    forall i, j :: 0 <= i < j < |s| ==> s[i] != s[j]
  }

  /** The set holding the elements of `s`, built element by element as
      Python's `set.add` does in a loop. */
  function ToSet<T(!new)>(s: seq<T>): (r: set<T>)
    ensures forall x :: x in r <==> x in s
  {
    if s == [] then {} else ToSet(s[..|s| - 1]) + {s[|s| - 1]}
  }

  /** Collecting one more element of a list adds it to the set. */
  lemma ToSetSnoc<T(!new)>(s: seq<T>, i: nat)
    requires i < |s|
    ensures ToSet(s[..i + 1]) == ToSet(s[..i]) + {s[i]}
  {
    assert s[..i + 1][..i] == s[..i];
  }

  /** A list has as many distinct elements as its length exactly when no
      element repeats; this is what a `len(set(xs)) != len(xs)` test decides. */
  lemma {:induction false} CardToSet<T(!new)>(s: seq<T>)
    ensures |ToSet(s)| <= |s|
    ensures |ToSet(s)| == |s| <==> Distinct(s)
  {
    if s != [] {
      var p, x := s[..|s| - 1], s[|s| - 1];
      assert s == p + [x];
      CardToSet(p);
      DistinctSnoc(p, x);
      if x in ToSet(p) {
        assert ToSet(s) == ToSet(p);
      } else {
        assert |ToSet(s)| == |ToSet(p)| + 1;
      }
    }
  }

  /** One more element keeps a list repetition-free exactly when it is new. */
  lemma DistinctSnoc<T>(p: seq<T>, x: T)
    ensures Distinct(p + [x]) <==> Distinct(p) && x !in p
  {
    var s := p + [x];
    if x in p {
      var j :| 0 <= j < |p| && p[j] == x;
      assert s[j] == s[|p|];
    }
    if Distinct(s) {
      forall i, k | 0 <= i < k < |p| ensures p[i] != p[k] {
        assert s[i] == p[i] && s[k] == p[k];
      }
    }
    if Distinct(p) && x !in p {
      forall i, k | 0 <= i < k < |s| ensures s[i] != s[k] {
        assert s[i] == p[i];
        if k < |p| {
          assert s[k] == p[k];
        }
      }
    }
  }

  /** Sequences with no repeated element and the same members have the same length. */
  lemma DistinctSameMembersSameLength<T(!new)>(s: seq<T>, m: set<T>)
    requires Distinct(s)
    requires forall x :: x in s <==> x in m
    ensures |s| == |m|
  {
    CardToSet(s);
    assert ToSet(s) == m;
  }

  /** `s` with every occurrence of `x` taken out and the order of the rest
      kept, as deleting a key from a Python dict keeps the order of the
      remaining keys. */
  function Erase<T(!new, ==)>(s: seq<T>, x: T): (r: seq<T>)
    ensures forall y :: y in r <==> y in s && y != x
    ensures Distinct(s) ==> Distinct(r)
    ensures Distinct(s) ==> |r| == if x in s then |s| - 1 else |s|
  {
    if s == [] then []
    else if s[0] == x then Erase(s[1..], x)
    else
      var rest := Erase(s[1..], x);
      assert Distinct(s) ==> s[0] !in s[1..] by {
        if Distinct(s) {
          assert forall k :: 0 <= k < |s[1..]| ==> s[1..][k] == s[k + 1];
        }
      }
      [s[0]] + rest
  }

  /** A slice of a slice is a slice of the original. */
  lemma SliceOfSlice<T>(s: seq<T>, a: nat, b: nat, c: nat, d: nat)
    requires a <= b <= |s| && c <= d <= b - a
    ensures s[a..b][c..d] == s[a + c .. a + d]
  {
    var t := s[a..b];
    assert |t[c..d]| == d - c;
    forall k | 0 <= k < d - c ensures t[c..d][k] == s[a + c + k] {
      assert t[c..d][k] == t[c + k];
    }
  }

  /** A slice of the second part of a concatenation. */
  lemma SliceOfAppend<T>(front: seq<T>, back: seq<T>, a: nat, b: nat)
    requires a <= b <= |back|
    ensures (front + back)[|front| + a .. |front| + b] == back[a..b]
  {
    var s := front + back;
    forall k | 0 <= k < b - a ensures s[|front| + a .. |front| + b][k] == back[a..b][k] {
      assert s[|front| + a + k] == back[a + k];
    }
  }

  /** A slice of the first part of a concatenation. */
  lemma SliceOfFront<T>(front: seq<T>, back: seq<T>, a: nat, b: nat)
    requires a <= b <= |front|
    ensures (front + back)[a..b] == front[a..b]
  {
    var s := front + back;
    forall k | 0 <= k < b - a ensures s[a..b][k] == front[a..b][k] {
      assert s[a + k] == front[a + k];
    }
  }
}
