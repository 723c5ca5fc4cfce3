/**
  Python's ordering of `str` values (code point by code point, a proper prefix first)
  and the sorted enumeration of a set of keys that `sorted(d.keys())` produces.
 */
module Ordering {

  /** Python `a < b` on strings. */
  predicate Less(a: string, b: string)
    decreases |a|
  {
    if |a| == 0 then |b| > 0
    else if |b| == 0 then false
    else if a[0] != b[0] then a[0] < b[0]
    else Less(a[1..], b[1..])
  }

  predicate LessEq(a: string, b: string) {
    a == b || Less(a, b)
  }

  predicate StrictlySorted(ks: seq<string>) {
    forall i, j :: 0 <= i < j < |ks| ==> Less(ks[i], ks[j])
  }

  lemma {:induction false} LessIrreflexive(a: string)
    ensures !Less(a, a)
    decreases |a|
  {
    if |a| > 0 {
      LessIrreflexive(a[1..]);
    }
  }

  lemma {:induction false} LessTransitive(a: string, b: string, c: string)
    requires Less(a, b) && Less(b, c)
    ensures Less(a, c)
    decreases |a|
  {
    if |a| > 0 && a[0] == b[0] && b[0] == c[0] {
      LessTransitive(a[1..], b[1..], c[1..]);
    }
  }

  /** Any two different strings are ordered one way. */
  lemma {:induction false} LessTotal(a: string, b: string)
    requires a != b
    ensures Less(a, b) || Less(b, a)
    decreases |a|
  {
    if |a| > 0 && |b| > 0 && a[0] == b[0] {
      assert a == [a[0]] + a[1..] && b == [b[0]] + b[1..];
      LessTotal(a[1..], b[1..]);
    }
  }

  lemma {:induction false} LessAsymmetric(a: string, b: string)
    requires Less(a, b)
    ensures !Less(b, a)
  {
    if Less(b, a) {
      LessTransitive(a, b, a);
      LessIrreflexive(a);
    }
  }

  /** Every non-empty finite set of strings has a least element. */
  lemma {:induction false} MinimumExists(keys: set<string>)
    requires keys != {}
    ensures exists m :: m in keys && forall x :: x in keys ==> LessEq(m, x)
    decreases |keys|
  {
    var y :| y in keys;
    if keys == {y} {
      assert forall x :: x in keys ==> LessEq(y, x);
    } else {
      var rest := keys - {y};
      MinimumExists(rest);
      var m :| m in rest && forall x :: x in rest ==> LessEq(m, x);
      if Less(y, m) {
        forall x | x in keys ensures LessEq(y, x) {
          if x != y {
            LessTransitiveEq(y, m, x);
          }
        }
      } else {
        LessTotal(y, m);
        forall x | x in keys ensures LessEq(m, x) {
        }
      }
    }
  }

  lemma LessTransitiveEq(a: string, b: string, c: string)
    requires Less(a, b) && LessEq(b, c)
    ensures Less(a, c)
  {
    if b != c {
      LessTransitive(a, b, c);
    }
  }

  /** The keys of `keys` in increasing order: what `sorted(keys)` returns. */
  ghost function SortedSeq(keys: set<string>): (ks: seq<string>)
    ensures StrictlySorted(ks)
    ensures |ks| == |keys|
    ensures forall k :: k in ks <==> k in keys
    decreases |keys|
  {
    if keys == {} then []
    else
      MinimumExists(keys);
      var m :| m in keys && forall x :: x in keys ==> LessEq(m, x);
      var rest := SortedSeq(keys - {m});
      LeastBelowRest(m, keys, rest);
      [m] + rest
  }

  lemma LeastBelowRest(m: string, keys: set<string>, rest: seq<string>)
    requires m in keys && forall x :: x in keys ==> LessEq(m, x)
    requires forall k :: k in rest <==> k in keys - {m}
    ensures forall j :: 0 <= j < |rest| ==> Less(m, rest[j])
  {
    forall j | 0 <= j < |rest| ensures Less(m, rest[j]) {
      assert rest[j] in keys - {m};
    }
  }

  /** A strictly sorted sequence is determined by its elements. */
  lemma {:induction false} SortedUnique(a: seq<string>, b: seq<string>)
    requires StrictlySorted(a) && StrictlySorted(b)
    requires forall k :: k in a <==> k in b
    ensures a == b
    decreases |a|
  {
    NonEmptyTogether(a, b);
    if |a| > 0 {
      assert a[0] in a;
      assert b[0] in b;
      HeadIsLeast(b, a[0]);
      HeadIsLeast(a, b[0]);
      LessEqAntisymmetric(a[0], b[0]);
      forall k ensures k in a[1..] <==> k in b[1..] {
        TailMembers(a, k);
        TailMembers(b, k);
      }
      SortedUnique(a[1..], b[1..]);
      assert a == [a[0]] + a[1..] && b == [b[0]] + b[1..];
    }
  }

  lemma NonEmptyTogether(a: seq<string>, b: seq<string>)
    requires forall k :: k in a <==> k in b
    ensures |a| > 0 <==> |b| > 0
  {
    if |a| > 0 {
      assert a[0] in b;
    }
    if |b| > 0 {
      assert b[0] in a;
    }
  }

  lemma HeadIsLeast(a: seq<string>, x: string)
    requires StrictlySorted(a) && x in a
    ensures LessEq(a[0], x)
  {
    var j :| 0 <= j < |a| && a[j] == x;
    if j > 0 {
      assert Less(a[0], a[j]);
    }
  }

  lemma LessEqAntisymmetric(a: string, b: string)
    requires LessEq(a, b) && LessEq(b, a)
    ensures a == b
  {
    if a != b {
      LessAsymmetric(a, b);
    }
  }

  /** In a strictly sorted sequence the tail holds exactly the elements other than the head. */
  lemma TailMembers(a: seq<string>, k: string)
    requires StrictlySorted(a) && |a| > 0
    ensures k in a[1..] <==> k in a && k != a[0]
  {
    if k in a[1..] {
      var j :| 0 <= j < |a[1..]| && a[1..][j] == k;
      assert Less(a[0], a[j + 1]);
      LessIrreflexive(k);
    }
    if k in a && k != a[0] {
      var j :| 0 <= j < |a| && a[j] == k;
      assert a[1..][j - 1] == k;
    }
  }

  /** The least element of a non-empty set, found by one pass over it. */
  method Minimum(keys: set<string>) returns (m: string)
    requires keys != {}
    ensures m in keys && forall x :: x in keys ==> LessEq(m, x)
  {
    m :| m in keys;
    var todo := keys - {m};
    while todo != {}
      invariant todo <= keys && m in keys
      invariant forall x :: x in keys - todo ==> LessEq(m, x)
      decreases |todo|
    {
      var x :| x in todo;
      if Less(x, m) {
        forall y | y in keys - todo ensures LessEq(x, y) {
          LessTransitiveEq(x, m, y);
        }
        m := x;
      } else if x != m {
        LessTotal(x, m);
      }
      todo := todo - {x};
    }
  }

  /** `sorted(keys)`: repeatedly takes the least remaining key. */
  method SortedKeys(keys: set<string>) returns (ks: seq<string>)
    ensures StrictlySorted(ks)
    ensures forall k :: k in ks <==> k in keys
    ensures ks == SortedSeq(keys)
  {
    ks := [];
    var todo := keys;
    while todo != {}
      invariant todo <= keys
      invariant forall k :: k in ks <==> k in keys - todo
      invariant StrictlySorted(ks)
      invariant forall i, x :: 0 <= i < |ks| && x in todo ==> Less(ks[i], x)
      decreases |todo|
    {
      var m := Minimum(todo);
      forall i, x | 0 <= i < |ks| && x in todo - {m} ensures Less(ks[i], x) {
      }
      forall x | x in todo - {m} ensures Less(m, x) {
        assert LessEq(m, x);
      }
      ks := ks + [m];
      todo := todo - {m};
    }
    SortedUnique(ks, SortedSeq(keys));
  }
}
