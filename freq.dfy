/** The frequency table of a group (distinct column value -> number of
    occurrences) and the statistics read off it: count_distinct, mode,
    antimode, distinct and distinct_only. */
module Freq {
  import opened Lex
  import opened Text

  function Occurrences(vals: seq<string>, v: string): nat {
    multiset(vals)[v]
  }

  function Elems(vals: seq<string>): set<string> {
    set v | v in vals
  }

  /** The frequency table of `vals`: its keys are exactly the distinct values,
      and each key maps to a positive count, the number of times it occurs. */
  function FreqOf(vals: seq<string>): (m: map<string, int>)
    ensures m.Keys == Elems(vals)
    ensures forall v :: v in m ==> m[v] >= 1
  {
    map v | v in vals :: Occurrences(vals, v)
  }

  /** Counting one more value bumps its count, or enters it with count 1. */
  lemma FreqOfSnoc(vals: seq<string>, x: string)
    ensures FreqOf(vals + [x]) == FreqOf(vals)[x := Occurrences(vals, x) + 1]
  {
    assert multiset(vals + [x]) == multiset(vals) + multiset{x};
  }

  /** One `_freqMap[v]++`: the table of vals + [v] is the table of vals with
      v's count (0 when absent) bumped, and its keys stay listed in order once
      a new key is inserted where the ordered map puts it. */
  lemma CountOne(vals: seq<string>, ks: seq<string>, v: string)
    requires StrictlySorted(ks) && FreqOf(vals).Keys == Elems(ks)
    ensures FreqOf(vals + [v]) == FreqOf(vals)[v := CountOf(FreqOf(vals), v) + 1]
    ensures v in FreqOf(vals) ==> FreqOf(vals + [v]).Keys == Elems(ks)
    ensures v !in FreqOf(vals) ==>
              StrictlySorted(Insert(ks, v)) && FreqOf(vals + [v]).Keys == Elems(Insert(ks, v))
  {
    FreqOfSnoc(vals, v);
    if v !in FreqOf(vals) {
      assert v !in ks;
      InsertSorted(ks, v);
    }
  }

  /** No value occurs more often than the group has records. */
  lemma {:induction false} OccurrencesAtMostLength(vals: seq<string>, v: string)
    ensures Occurrences(vals, v) <= |vals|
  {
    if vals != [] {
      var init := vals[..|vals| - 1];
      assert init + [vals[|vals| - 1]] == vals;
      assert multiset(vals) == multiset(init) + multiset{vals[|vals| - 1]};
      OccurrencesAtMostLength(init, v);
    }
  }

  /** A count looked up as `std::map::operator[]` would see it: 0 when absent. */
  function CountOf(m: map<string, int>, k: string): int {
    if k in m then m[k] else 0
  }

  function SumCounts(ks: seq<string>, m: map<string, int>): int {
    if ks == [] then 0 else CountOf(m, ks[0]) + SumCounts(ks[1..], m)
  }

  lemma {:induction false} SumCountsSnoc(ks: seq<string>, vals: seq<string>, x: string)
    requires AllDifferent(ks)
    ensures SumCounts(ks, FreqOf(vals + [x])) == SumCounts(ks, FreqOf(vals)) + (if x in ks then 1 else 0)
  {
    FreqOfSnoc(vals, x);
    if ks != [] {
      assert AllDifferent(ks[1..]);
      SumCountsSnoc(ks[1..], vals, x);
      assert x in ks <==> x == ks[0] || x in ks[1..];
    }
  }

  /** The counts of a frequency table, summed over its keys, give the group size. */
  lemma {:induction false} CountsSumToLength(vals: seq<string>, ks: seq<string>)
    requires AllDifferent(ks)
    requires forall v :: v in vals ==> v in ks
    ensures SumCounts(ks, FreqOf(vals)) == |vals|
  {
    if vals == [] {
      ZeroCounts(ks);
    } else {
      var init := vals[..|vals| - 1];
      var last := vals[|vals| - 1];
      assert init + [last] == vals;
      CountsSumToLength(init, ks);
      SumCountsSnoc(ks, init, last);
    }
  }

  lemma {:induction false} ZeroCounts(ks: seq<string>)
    ensures SumCounts(ks, FreqOf([])) == 0
  {
    if ks != [] {
      ZeroCounts(ks[1..]);
    }
  }

  /** The number of distinct values: at least one in a non-empty group,
      never more than the group size, and exactly the group size when no
      value repeats. */
  lemma {:induction false} ElemsBounds(vals: seq<string>)
    ensures |Elems(vals)| <= |vals|
    ensures |vals| > 0 ==> |Elems(vals)| >= 1
    ensures |Elems(vals)| == |vals| <==> AllDifferent(vals)
  {
    if vals != [] {
      var init := vals[..|vals| - 1];
      var last := vals[|vals| - 1];
      assert init + [last] == vals;
      ElemsBounds(init);
      assert Elems(vals) == Elems(init) + {last};
      if last in init {
        var i :| 0 <= i < |init| && init[i] == last;
        assert vals[i] == vals[|vals| - 1];
      } else {
        assert |Elems(vals)| == |Elems(init)| + 1;
        if AllDifferent(init) {
          forall i, j | 0 <= i < j < |vals| ensures vals[i] != vals[j] {
            if j < |init| {
              assert vals[i] == init[i] && vals[j] == init[j];
            } else {
              assert vals[i] in init;
            }
          }
        }
        if AllDifferent(vals) {
          forall i, j | 0 <= i < j < |init| ensures init[i] != init[j] {
            assert vals[i] == init[i] && vals[j] == init[j];
          }
        }
      }
    }
  }

  /** count_distinct against count: the table has one entry per distinct value. */
  lemma DistinctCountBounds(vals: seq<string>)
    ensures |FreqOf(vals)| == |Elems(vals)| <= |vals|
    ensures |vals| > 0 ==> |FreqOf(vals)| >= 1
    ensures |FreqOf(vals)| == |vals| <==> AllDifferent(vals)
  {
    assert FreqOf(vals).Keys == Elems(vals);
    ElemsBounds(vals);
  }

  /** r is the mode getMode reports: a most frequent value and, among the
      values tied with it, the first in key order. */
  ghost predicate IsFirstMode(vals: seq<string>, r: string) {
    && r in vals
    && (forall v :: v in vals ==> Occurrences(vals, v) <= Occurrences(vals, r))
    && (forall v :: v in vals && Occurrences(vals, v) == Occurrences(vals, r) ==> !Less(v, r))
  }

  /** r is the antimode getAntiMode reports: a least frequent value and,
      among the values tied with it, the first in key order. */
  ghost predicate IsFirstAntiMode(vals: seq<string>, r: string) {
    && r in vals
    && (forall v :: v in vals ==> Occurrences(vals, r) <= Occurrences(vals, v))
    && (forall v :: v in vals && Occurrences(vals, v) == Occurrences(vals, r) ==> !Less(v, r))
  }

  /** The tie-break makes the mode a function of the group. */
  lemma ModeUnique(vals: seq<string>, r1: string, r2: string)
    requires IsFirstMode(vals, r1) && IsFirstMode(vals, r2)
    ensures r1 == r2
  {
    LessTotal(r1, r2);
  }

  lemma AntiModeUnique(vals: seq<string>, r1: string, r2: string)
    requires IsFirstAntiMode(vals, r1) && IsFirstAntiMode(vals, r2)
    ensures r1 == r2
  {
    LessTotal(r1, r2);
  }

  /** The key getMode's scan settles on — one whose count no key beats and
      which no earlier key ties — is the first mode of the group. */
  lemma TableMode(vals: seq<string>, m: map<string, int>, ks: seq<string>, i: int)
    requires m == FreqOf(vals) && StrictlySorted(ks) && m.Keys == Elems(ks)
    requires 0 <= i < |ks|
    requires forall j :: 0 <= j < |ks| ==> m[ks[j]] <= m[ks[i]]
    requires forall j :: 0 <= j < i ==> m[ks[j]] < m[ks[i]]
    ensures IsFirstMode(vals, ks[i])
  {
    assert ks[i] in Elems(ks);
    forall v | v in vals
      ensures Occurrences(vals, v) <= Occurrences(vals, ks[i])
      ensures Occurrences(vals, v) == Occurrences(vals, ks[i]) ==> !Less(v, ks[i])
    {
      assert v in Elems(vals);
      var j :| 0 <= j < |ks| && ks[j] == v;
      if Less(v, ks[i]) {
        SortedPosition(ks, i, j);
      }
    }
  }

  /** Likewise getAntiMode's key is the first antimode of the group. */
  lemma TableAntiMode(vals: seq<string>, m: map<string, int>, ks: seq<string>, i: int)
    requires m == FreqOf(vals) && StrictlySorted(ks) && m.Keys == Elems(ks)
    requires 0 <= i < |ks|
    requires forall j :: 0 <= j < |ks| ==> m[ks[i]] <= m[ks[j]]
    requires forall j :: 0 <= j < i ==> m[ks[i]] < m[ks[j]]
    ensures IsFirstAntiMode(vals, ks[i])
  {
    assert ks[i] in Elems(ks);
    forall v | v in vals
      ensures Occurrences(vals, ks[i]) <= Occurrences(vals, v)
      ensures Occurrences(vals, v) == Occurrences(vals, ks[i]) ==> !Less(v, ks[i])
    {
      assert v in Elems(vals);
      var j :| 0 <= j < |ks| && ks[j] == v;
      if Less(v, ks[i]) {
        SortedPosition(ks, i, j);
      }
    }
  }

  /** The keys, in order, whose count is exactly 1. */
  function Uniques(ks: seq<string>, m: map<string, int>): (u: seq<string>)
    ensures forall k :: k in u <==> k in ks && CountOf(m, k) == 1
  {
    if ks == [] then []
    else if CountOf(m, ks[0]) == 1 then [ks[0]] + Uniques(ks[1..], m)
    else Uniques(ks[1..], m)
  }

  lemma {:induction false} UniquesSnoc(ks: seq<string>, m: map<string, int>, k: string)
    ensures Uniques(ks + [k], m) == Uniques(ks, m) + (if CountOf(m, k) == 1 then [k] else [])
  {
    if ks != [] {
      assert (ks + [k])[1..] == ks[1..] + [k];
      UniquesSnoc(ks[1..], m, k);
    }
  }

  /** getDistinctOnly as written: a key of count 1 is emitted, preceded by the
      delimiter whenever it is not the first key of the table, whether or not
      anything was emitted before it. */
  function DistinctOnlyAsWritten(ks: seq<string>, m: map<string, int>, delim: string): string {
    if ks == [] then ""
    else
      var k := ks[|ks| - 1];
      DistinctOnlyAsWritten(ks[..|ks| - 1], m, delim)
        + (if CountOf(m, k) != 1 then "" else (if |ks| > 1 then delim else "") + k)
  }

  /** One step of getDistinctOnly's loop over the table's keys. */
  lemma DistinctOnlyStep(ks: seq<string>, m: map<string, int>, i: nat, text: string, delim: string)
    requires i < |ks| && text == DistinctOnlyAsWritten(ks[..i], m, delim)
    ensures (if CountOf(m, ks[i]) == 1 then (if i != 0 then text + delim else text) + ks[i] else text)
         == DistinctOnlyAsWritten(ks[..i + 1], m, delim)
  {
    assert ks[..i + 1][..i] == ks[..i];
  }

  /** distinct_only as evidently intended: the count-1 keys joined by the delimiter. */
  function DistinctOnlyJoined(ks: seq<string>, m: map<string, int>, delim: string): string {
    Join(Uniques(ks, m), delim)
  }

  /** The stray delimiter the written code puts in front of the intended text. */
  function StrayDelimiter(ks: seq<string>, m: map<string, int>, delim: string): string {
    if |Uniques(ks, m)| > 0 && CountOf(m, ks[0]) != 1 then delim else ""
  }

  /** The written code yields the intended text, preceded by one stray
      delimiter exactly when the table's first key repeats and some later key
      does not. */
  lemma {:induction false} DistinctOnlyAsWrittenShape(ks: seq<string>, m: map<string, int>, delim: string)
    ensures DistinctOnlyAsWritten(ks, m, delim)
         == StrayDelimiter(ks, m, delim) + DistinctOnlyJoined(ks, m, delim)
  {
    if |ks| == 1 {
      assert ks[1..] == [] && ks[..0] == [];
      assert Uniques(ks, m) == if CountOf(m, ks[0]) == 1 then [ks[0]] else [];
    } else if |ks| > 1 {
      var init := ks[..|ks| - 1];
      var k := ks[|ks| - 1];
      assert init + [k] == ks;
      DistinctOnlyAsWrittenShape(init, m, delim);
      UniquesSnoc(init, m, k);
      ShapeStep(init, k, m, delim);
    }
  }

  lemma ShapeStep(init: seq<string>, k: string, m: map<string, int>, delim: string)
    requires |init| > 0
    requires DistinctOnlyAsWritten(init, m, delim)
          == StrayDelimiter(init, m, delim) + Join(Uniques(init, m), delim)
    requires Uniques(init + [k], m) == Uniques(init, m) + (if CountOf(m, k) == 1 then [k] else [])
    ensures DistinctOnlyAsWritten(init + [k], m, delim)
         == StrayDelimiter(init + [k], m, delim) + Join(Uniques(init + [k], m), delim)
  {
    var ks := init + [k];
    assert ks[..|ks| - 1] == init && ks[0] == init[0];
    if CountOf(m, k) == 1 {
      assert DistinctOnlyAsWritten(ks, m, delim) == DistinctOnlyAsWritten(init, m, delim) + (delim + k);
      ShapeStepEmit(init, k, m, delim);
    } else {
      assert DistinctOnlyAsWritten(ks, m, delim) == DistinctOnlyAsWritten(init, m, delim) + "";
      assert Uniques(ks, m) == Uniques(init, m);
      assert StrayDelimiter(ks, m, delim) == StrayDelimiter(init, m, delim);
    }
  }

  lemma ShapeStepEmit(init: seq<string>, k: string, m: map<string, int>, delim: string)
    requires |init| > 0 && CountOf(m, k) == 1
    requires DistinctOnlyAsWritten(init, m, delim)
          == StrayDelimiter(init, m, delim) + Join(Uniques(init, m), delim)
    requires DistinctOnlyAsWritten(init + [k], m, delim) == DistinctOnlyAsWritten(init, m, delim) + (delim + k)
    requires Uniques(init + [k], m) == Uniques(init, m) + [k]
    ensures DistinctOnlyAsWritten(init + [k], m, delim)
         == StrayDelimiter(init + [k], m, delim) + Join(Uniques(init + [k], m), delim)
  {
    var u := Uniques(init, m);
    var ks := init + [k];
    assert ks[0] == init[0];
    JoinSnoc(u, delim, k);
    if |u| == 0 {
      assert init[0] in init;
      assert StrayDelimiter(ks, m, delim) == delim;
      assert DistinctOnlyAsWritten(init, m, delim) == "";
    } else {
      assert StrayDelimiter(ks, m, delim) == StrayDelimiter(init, m, delim);
      AppendAssoc(StrayDelimiter(init, m, delim), Join(u, delim), delim, k);
    }
  }

  /** On the group ["a", "a", "b"] the written code reports ",b": its output
      starts with the delimiter, while the intended output is "b". */
  /** The table of the group a, a, b. */
  lemma FreqOfSample()
    ensures FreqOf(["a", "a", "b"]) == map["a" := 2, "b" := 1]
  {
    var vals := ["a", "a", "b"];
    assert multiset(vals)["a"] == 2;
    assert multiset(vals)["b"] == 1;
    assert Elems(vals) == {"a", "b"};
  }

  lemma DistinctOnlyLeadingDelimiter()
    ensures var vals := ["a", "a", "b"];
            var m := FreqOf(vals);
            && StrictlySorted(["a", "b"]) && m.Keys == Elems(["a", "b"])
            && DistinctOnlyAsWritten(["a", "b"], m, ",") == ",b"
            && DistinctOnlyJoined(["a", "b"], m, ",") == "b"
  {
    FreqOfSample();
    var m := map["a" := 2, "b" := 1];
    assert Elems(["a", "b"]) == {"a", "b"};
    assert ["a", "b"][1..] == ["b"] && ["b"][1..] == [];
    assert Uniques(["b"], m) == ["b"];
    assert Uniques(["a", "b"], m) == ["b"];
    assert ["a", "b"][..1] == ["a"] && ["a"][..0] == [];
    assert DistinctOnlyAsWritten(["a"], m, ",") == "";
  }

  lemma {:induction false} JoinStartsWithFirst(parts: seq<string>, delim: string)
    requires |parts| > 0
    ensures parts[0] <= Join(parts, delim)
  {
    if |parts| > 1 {
      JoinStartsWithFirst(parts[..|parts| - 1], delim);
    }
  }

  /** The intended distinct_only lists every value of count 1, each once, in
      key order, and begins with the first of them rather than a delimiter. */
  lemma DistinctOnlyJoinedStartsWithValue(ks: seq<string>, m: map<string, int>, delim: string)
    requires |Uniques(ks, m)| > 0
    ensures Uniques(ks, m)[0] <= DistinctOnlyJoined(ks, m, delim)
  {
    JoinStartsWithFirst(Uniques(ks, m), delim);
  }
}
