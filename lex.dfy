/** Byte-wise lexicographic order on strings (the ordering `less<QuickString>`
    gives the frequency map's keys), and strictly sorted key sequences, which
    stand for the iteration order of an ordered map. */
module Lex {

  /** `a` sorts strictly before `b`: the first differing character decides,
      and a proper prefix sorts first. */
  predicate Less(a: string, b: string)
    decreases |a|
  {
    if |a| == 0 then |b| > 0
    else if |b| == 0 then false
    else if a[0] != b[0] then a[0] < b[0]
    else Less(a[1..], b[1..])
  }

  /** The non-strict companion of Less. */
  predicate LessEq(a: string, b: string) {
    a == b || Less(a, b)
  }

  lemma {:induction false} LessIrreflexive(a: string)
    ensures !Less(a, a)
  {
    if |a| > 0 {
      LessIrreflexive(a[1..]);
    }
  }

  lemma {:induction false} LessTransitive(a: string, b: string, c: string)
    requires Less(a, b) && Less(b, c)
    ensures Less(a, c)
  {
    if |a| > 0 && a[0] == b[0] && b[0] == c[0] {
      LessTransitive(a[1..], b[1..], c[1..]);
    }
  }

  lemma {:induction false} LessTotal(a: string, b: string)
    ensures a == b || Less(a, b) || Less(b, a)
  {
    if |a| > 0 && |b| > 0 && a[0] == b[0] {
      LessTotal(a[1..], b[1..]);
      if a[1..] == b[1..] {
        assert a == [a[0]] + a[1..] && b == [b[0]] + b[1..];
      }
    }
  }

  lemma LessAsymmetric(a: string, b: string)
    requires Less(a, b)
    ensures !Less(b, a)
  {
    if Less(b, a) {
      LessTransitive(a, b, a);
      LessIrreflexive(a);
    }
  }

  /** LessEq is a total order: the fact the sorting of string arrays needs. */
  lemma LessEqTotalOrder()
    ensures forall a, b :: LessEq(a, b) || LessEq(b, a)
    ensures forall a, b, c :: LessEq(a, b) && LessEq(b, c) ==> LessEq(a, c)
    ensures forall a, b :: LessEq(a, b) && LessEq(b, a) ==> a == b
  {
    forall a, b ensures LessEq(a, b) || LessEq(b, a) {
      LessTotal(a, b);
    }
    forall a, b, c | LessEq(a, b) && LessEq(b, c) ensures LessEq(a, c) {
      if a != b && b != c {
        LessTransitive(a, b, c);
      }
    }
    forall a, b | LessEq(a, b) && LessEq(b, a) ensures a == b {
      if a != b {
        LessAsymmetric(a, b);
      }
    }
  }

  /** Keys in ascending order, each once: the iteration order of an ordered map. */
  ghost predicate StrictlySorted(ks: seq<string>) {
    forall i, j :: 0 <= i < j < |ks| ==> Less(ks[i], ks[j])
  }

  ghost predicate AllDifferent<T>(s: seq<T>) {
    forall i, j :: 0 <= i < j < |s| ==> s[i] != s[j]
  }

  lemma SortedDistinct(ks: seq<string>)
    requires StrictlySorted(ks)
    ensures AllDifferent(ks)
  {
    forall i, j | 0 <= i < j < |ks| ensures ks[i] != ks[j] {
      LessIrreflexive(ks[i]);
    }
  }

  /** In a sorted key sequence, a key that sorts before `ks[i]` sits before position `i`. */
  lemma SortedPosition(ks: seq<string>, i: int, j: int)
    requires StrictlySorted(ks)
    requires 0 <= i < |ks| && 0 <= j < |ks|
    requires Less(ks[j], ks[i])
    ensures j < i
  {
    if i == j {
      LessIrreflexive(ks[i]);
    } else if i < j {
      LessAsymmetric(ks[j], ks[i]);
    }
  }

  /** Where an ordered map puts a key it did not hold before. */
  function Insert(ks: seq<string>, k: string): (r: seq<string>)
    ensures |r| == |ks| + 1
    ensures forall x :: x in r <==> x in ks || x == k
  {
    if ks == [] then [k]
    else if Less(k, ks[0]) then [k] + ks
    else [ks[0]] + Insert(ks[1..], k)
  }

  lemma {:induction false} InsertSorted(ks: seq<string>, k: string)
    requires StrictlySorted(ks) && k !in ks
    ensures StrictlySorted(Insert(ks, k))
  {
    if ks == [] {
    } else if Less(k, ks[0]) {
      var r := Insert(ks, k);
      forall i, j | 0 <= i < j < |r| ensures Less(r[i], r[j]) {
        if i == 0 && j > 1 {
          LessTransitive(k, ks[0], ks[j - 1]);
        }
      }
    } else {
      LessTotal(k, ks[0]);
      InsertSorted(ks[1..], k);
      var r := Insert(ks, k);
      var tail := Insert(ks[1..], k);
      assert r == [ks[0]] + tail;
      forall j | 0 < j < |r| ensures Less(r[0], r[j]) {
        assert r[j] in tail;
      }
    }
  }
}
