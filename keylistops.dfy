/** The grouped-column aggregation engine: an object attached to one group
    of records (given here by the values of the aggregated column, in group
    order) that computes one statistic per call.  Like the original it walks
    the group with a shared cursor, keeps its frequency table, sortable arrays
    and result string as fields, and rebuilds them on every call. */
module Aggregation {
  import opened Lex
  import opened Text
  import opened Sorting
  import opened Freq
  import opened Histogram
  import opened OpCodes
  import opened Numeric

  newtype uint32 = x: int | 0 <= x < 0x1_0000_0000

  /** How `toArray` leaves the array: as the group has it, or sorted either way. */
  datatype SortType = Unsorted | Asc | Desc

  /** The orders `less<QuickString>` and `greater<QuickString>` sort by. */
  const TextAscending: (string, string) -> bool := (a: string, b: string) => LessEq(a, b)
  const TextDescending: (string, string) -> bool := (a: string, b: string) => LessEq(b, a)

  lemma TextOrders()
    ensures TotalOrder(TextAscending) && TotalOrder(TextDescending)
  {
    LessEqTotalOrder();
  }

  /** The column values as numbers, each parsed by `atof`. */
  function ParseAll(vals: seq<string>, atof: string -> real): seq<real> {
    seq(|vals|, i requires 0 <= i < |vals| => atof(vals[i]))
  }

  class KeyListOps {
    /** The aggregated column of the attached group, in group order. */
    var keyList: seq<string>
    /** The group cursor: the index of the current record. */
    var iter: nat
    var nullVal: string
    var delimStr: string
    /** Scratch storage for textual results. */
    var retStr: string
    var opCodes: map<string, OpType>
    /** The frequency table and the order its iterator visits the keys in. */
    var freqMap: map<string, int>
    var freqKeys: seq<string>
    var freqIter: nat
    /** The sortable arrays, numeric and textual. */
    var numArray: array<real>
    var qsArray: array<string>
    /** The text-to-number conversion, `atof`, which is not part of this model. */
    const atof: string -> real

    /** The class invariant: a group small enough for the `int` and
        `uint32_t` counters, the cursor and the table iterator within range,
        and a frequency table listed in key order.  The name table, which no
        method but Init changes, is kept apart in IsOpTable. */
    ghost predicate Valid()
      reads this`keyList, this`iter, this`freqMap, this`freqKeys, this`freqIter
    {
      && |keyList| < INT_MAX
      && iter <= |keyList|
      && TableOrdered()
      && freqIter <= |freqKeys|
      && (forall s :: -DBL_MAX <= atof(s) <= DBL_MAX)
    }

    /** freqKeys lists the keys of freqMap in the order its iterator visits them. */
    ghost predicate TableOrdered()
      reads this`freqMap, this`freqKeys
    {
      StrictlySorted(freqKeys) && freqMap.Keys == Elems(freqKeys)
    }

    /** The column values as the numeric statistics read them. */
    function Values(): (xs: seq<real>)
      reads this`keyList
      ensures |xs| == |keyList|
    {
      ParseAll(keyList, atof)
    }

    /** An engine attached to no group, which answers as on an empty group. */
    constructor Unattached(atof: string -> real)
      requires forall s :: -DBL_MAX <= atof(s) <= DBL_MAX
      ensures Valid() && IsOpTable(opCodes) && this.atof == atof
      ensures keyList == [] && nullVal == "." && delimStr == ","
    {
      keyList := [];
      iter := 0;
      nullVal := ".";
      delimStr := ",";
      retStr := "";
      opCodes := map[];
      freqMap := map[];
      freqKeys := [];
      freqIter := 0;
      numArray := new real[0];
      qsArray := new string[0];
      this.atof := atof;
      new;
      Init();
    }

    /** An engine attached to a group, with the cursor at its first record. */
    constructor (keyList: seq<string>, atof: string -> real)
      requires |keyList| < INT_MAX
      requires forall s :: -DBL_MAX <= atof(s) <= DBL_MAX
      ensures Valid() && IsOpTable(opCodes) && this.atof == atof
      ensures this.keyList == keyList && iter == 0 && nullVal == "." && delimStr == ","
    {
      this.keyList := keyList;
      iter := 0;
      nullVal := ".";
      delimStr := ",";
      retStr := "";
      opCodes := map[];
      freqMap := map[];
      freqKeys := [];
      freqIter := 0;
      numArray := new real[0];
      qsArray := new string[0];
      this.atof := atof;
      new;
      Init();
    }

    /** Registers every statistic under its name. */
    method Init()
      requires opCodes == map[]
      modifies this`opCodes
      ensures IsOpTable(opCodes)
    {
      opCodes := RegisterAll(opCodes);
    }

    /** The code registered for `operation`, or Invalid when none is: the
        inverse of OpName. */
    function GetOpCode(operation: string): (op: OpType)
      reads this`opCodes
      requires IsOpTable(opCodes)
      ensures op != Invalid ==> OpName(op) == operation
      ensures op == Invalid <==> forall o :: o != Invalid ==> OpName(o) != operation
    {
      if operation in opCodes then opCodes[operation] else Invalid
    }

    // The group cursor.

    /** empty(): the group has no records, so it has no values at all. */
    function Empty(): (b: bool)
      reads this`keyList
      ensures b <==> Elems(keyList) == {}
    {
      assert keyList != [] ==> keyList[0] in Elems(keyList);
      |keyList| == 0
    }

    /** begin(): the cursor goes to the first record, which is already the
        end exactly when the group is empty. */
    method Begin()
      modifies this`iter
      ensures iter == 0
      ensures End() <==> Empty()
    {
      iter := 0;
    }

    /** end(): under the invariant, the cursor is exactly one past the last
        record. */
    function End(): (b: bool)
      reads this`iter, this`keyList
      ensures iter <= |keyList| ==> (b <==> iter == |keyList|)
    {
      iter >= |keyList|
    }

    /** next(): the cursor moves one record on, and reaches the end exactly
        when it was on the last record. */
    method Next()
      requires iter < |keyList|
      modifies this`iter
      ensures iter == old(iter) + 1
      ensures End() <==> old(iter) == |keyList| - 1
    {
      iter := iter + 1;
    }

    /** getColVal(): the text of the current record, whose number is the
        current number. */
    function ColVal(): (v: string)
      reads this`iter, this`keyList
      requires iter < |keyList|
      ensures v in keyList && v == keyList[iter]
      ensures atof(v) == ColValNum()
    {
      keyList[iter]
    }

    function ColValNum(): (x: real)
      reads this`iter, this`keyList
      requires iter < |keyList|
      ensures x == Values()[iter]
    {
      atof(keyList[iter])
    }

    /** The number of records in the group; no sentinel for an empty group. */
    function GetCount(): (n: uint32)
      reads this
      requires Valid()
      ensures n as int == |keyList|
      ensures n == 0 <==> Empty()
    {
      |keyList| as uint32
    }

    // The numeric statistics.  Each walks the group with the cursor and
    // leaves it at the end; on an empty group each answers NaN untouched.

    /** sum: the values added left to right. */
    method GetSum() returns (r: Stat)
      requires Valid()
      modifies this`iter
      ensures Valid()
      ensures Empty() ==> r == NaN && unchanged(this)
      ensures !Empty() ==> r == Num(Total(Values())) && iter == |keyList|
    {
      if Empty() {
        return NaN;
      }
      var theSum := 0.0;
      Begin();
      while !End()
        invariant Valid()
        invariant theSum == Total(Values()[..iter])
        decreases |keyList| - iter
        modifies this`iter
      {
        assert Values()[..iter + 1][..iter] == Values()[..iter];
        theSum := theSum + ColValNum();
        Next();
      }
      assert Values()[..iter] == Values();
      return Num(theSum);
    }

    /** mean: the sum divided by the number of records. */
    method GetMean() returns (r: Stat)
      requires Valid()
      modifies this`iter
      ensures Valid()
      ensures Empty() ==> r == NaN && unchanged(this)
      ensures !Empty() ==> r == Num(MeanOf(Values())) && iter == |keyList|
    {
      if Empty() {
        return NaN;
      }
      var theSum := GetSum();
      return Num(theSum.value / GetCount() as real);
    }

    /** The squared deviations of the values from `avg`, added left to right:
        the loop getStddev and getSampleStddev share. */
    method SquareDiffs(avg: real) returns (squareDiffSum: real)
      requires Valid()
      modifies this`iter
      ensures Valid()
      ensures squareDiffSum == SquareDiffSum(Values(), avg) && iter == |keyList|
    {
      squareDiffSum := 0.0;
      Begin();
      while !End()
        invariant Valid()
        invariant squareDiffSum == SquareDiffSum(Values()[..iter], avg)
        decreases |keyList| - iter
        modifies this`iter
      {
        assert Values()[..iter + 1][..iter] == Values()[..iter];
        var val := ColValNum();
        var diff := val - avg;
        squareDiffSum := squareDiffSum + diff * diff;
        Next();
      }
      assert Values()[..iter] == Values();
    }

    /** stddev: the mean squared deviation from the mean (a variance). */
    method GetStddev() returns (r: Stat)
      requires Valid()
      modifies this`iter
      ensures Valid()
      ensures Empty() ==> r == NaN && unchanged(this)
      ensures !Empty() ==> r == Num(Variance(Values())) && r.value >= 0.0 && iter == |keyList|
    {
      if Empty() {
        return NaN;
      }
      var avg := GetMean();
      var squareDiffSum := SquareDiffs(avg.value);
      VarianceNonNegative(Values());
      return Num(squareDiffSum / GetCount() as real);
    }

    /** sample_stddev: the squared deviations divided by N - 1.  For a single
        record that is 0 / 0, which is NaN. */
    method GetSampleStddev() returns (r: Stat)
      requires Valid()
      modifies this`iter
      ensures Valid()
      ensures Empty() ==> r == NaN && unchanged(this)
      ensures |keyList| == 1 ==> r == NaN && iter == 1
      ensures |keyList| > 1 ==> r == Num(SampleVariance(Values())) && r.value >= 0.0 && iter == |keyList|
    {
      if Empty() {
        return NaN;
      }
      var avg := GetMean();
      var squareDiffSum := SquareDiffs(avg.value);
      var divisor := GetCount() as real - 1.0;
      if divisor == 0.0 {
        return NaN;
      }
      VarianceNonNegative(Values());
      return Num(squareDiffSum / divisor);
    }

    /** median: the middle of the ascending numeric array, or the mean of the
        two middle values; at least half of the values lie on either side. */
    method GetMedian() returns (r: Stat)
      requires Valid()
      modifies this`iter, this`numArray, this`qsArray
      ensures Valid() && qsArray == old(qsArray)
      ensures Empty() ==> r == NaN && unchanged(this)
      ensures !Empty() ==> fresh(numArray) && iter == |keyList|
      ensures !Empty() ==> SortedBy(numArray[..], Ascending) && multiset(numArray[..]) == multiset(Values())
      ensures !Empty() ==> r == Num(MedianOfSorted(numArray[..]))
      ensures !Empty() ==> 2 * CountAtMost(Values(), r.value) >= |keyList|
      ensures !Empty() ==> 2 * CountAtLeast(Values(), r.value) >= |keyList|
    {
      if Empty() {
        return NaN;
      }
      ToArray(true, Asc);
      var count := GetCount() as int;
      MedianSplitsGroup(Values(), numArray[..]);
      if count % 2 == 1 {
        return Num(numArray[count / 2]);
      } else {
        var sum := numArray[count / 2 - 1] + numArray[count / 2];
        return Num(sum / 2.0);
      }
    }

    /** min: the scan seeded with DBL_MAX, which yields the least value. */
    method GetMin() returns (r: Stat)
      requires Valid()
      modifies this`iter
      ensures Valid()
      ensures Empty() ==> r == NaN && unchanged(this)
      ensures !Empty() ==> r == Num(ScanMin(DBL_MAX, Values())) && iter == |keyList|
      ensures !Empty() ==> r.value in Values() && forall x :: x in Values() ==> r.value <= x
    {
      if Empty() {
        return NaN;
      }
      var x := ScanLeast(false);
      r := Num(x);
      ScanMinIsLeast(DBL_MAX, Values());
      ScanMinFromDblMax(Values());
    }

    /** absmin: the same scan over the absolute values. */
    method GetAbsMin() returns (r: Stat)
      requires Valid()
      modifies this`iter
      ensures Valid()
      ensures Empty() ==> r == NaN && unchanged(this)
      ensures !Empty() ==> r == Num(ScanMin(DBL_MAX, AbsAll(Values()))) && iter == |keyList|
      ensures !Empty() ==> r.value in AbsAll(Values()) && forall x :: x in AbsAll(Values()) ==> r.value <= x
    {
      if Empty() {
        return NaN;
      }
      var x := ScanLeast(true);
      r := Num(x);
      ScanMinIsLeast(DBL_MAX, AbsAll(Values()));
      ScanMinFromDblMax(AbsAll(Values()));
    }

    /** The loop of getMin and getAbsMin. */
    method ScanLeast(useAbs: bool) returns (minVal: real)
      requires Valid()
      modifies this`iter
      ensures Valid()
      ensures minVal == ScanMin(DBL_MAX, if useAbs then AbsAll(Values()) else Values())
      ensures iter == |keyList|
    {
      ghost var xs := if useAbs then AbsAll(Values()) else Values();
      minVal := DBL_MAX;
      Begin();
      while !End()
        invariant Valid()
        invariant minVal == ScanMin(DBL_MAX, xs[..iter])
        decreases |keyList| - iter
        modifies this`iter
      {
        assert xs[..iter + 1][..iter] == xs[..iter];
        var currVal := if useAbs then Abs(ColValNum()) else ColValNum();
        minVal := if currVal < minVal then currVal else minVal;
        Next();
      }
      assert xs[..iter] == xs;
    }

    /** max: the scan seeded with DBL_MIN, the smallest positive double, so it
        yields the largest value only when that is at least DBL_MIN. */
    method GetMax() returns (r: Stat)
      requires Valid()
      modifies this`iter
      ensures Valid()
      ensures Empty() ==> r == NaN && unchanged(this)
      ensures !Empty() ==> r == Num(ScanMax(DBL_MIN, Values())) && iter == |keyList|
      ensures !Empty() ==>
        r.value == if MaxElement(Values()) > DBL_MIN then MaxElement(Values()) else DBL_MIN
    {
      if Empty() {
        return NaN;
      }
      var x := ScanGreatest(false);
      r := Num(x);
      ScanMaxOfSeed(DBL_MIN, Values());
    }

    /** absmax: the same scan over the absolute values. */
    method GetAbsMax() returns (r: Stat)
      requires Valid()
      modifies this`iter
      ensures Valid()
      ensures Empty() ==> r == NaN && unchanged(this)
      ensures !Empty() ==> r == Num(ScanMax(DBL_MIN, AbsAll(Values()))) && iter == |keyList|
      ensures !Empty() ==>
        r.value == if MaxElement(AbsAll(Values())) > DBL_MIN then MaxElement(AbsAll(Values())) else DBL_MIN
    {
      if Empty() {
        return NaN;
      }
      var x := ScanGreatest(true);
      r := Num(x);
      ScanMaxOfSeed(DBL_MIN, AbsAll(Values()));
    }

    /** The loop of getMax and getAbsMax. */
    method ScanGreatest(useAbs: bool) returns (maxVal: real)
      requires Valid()
      modifies this`iter
      ensures Valid()
      ensures maxVal == ScanMax(DBL_MIN, if useAbs then AbsAll(Values()) else Values())
      ensures iter == |keyList|
    {
      ghost var xs := if useAbs then AbsAll(Values()) else Values();
      maxVal := DBL_MIN;
      Begin();
      while !End()
        invariant Valid()
        invariant maxVal == ScanMax(DBL_MIN, xs[..iter])
        decreases |keyList| - iter
        modifies this`iter
      {
        assert xs[..iter + 1][..iter] == xs[..iter];
        var currVal := if useAbs then Abs(ColValNum()) else ColValNum();
        maxVal := if currVal > maxVal then currVal else maxVal;
        Next();
      }
      assert xs[..iter] == xs;
    }

    // The frequency table and the statistics read off it.

    /** Counts every value of the group into the frequency table and points
        the table iterator at its first key. */
    method MakeFreqMap()
      requires Valid()
      modifies this`iter, this`freqMap, this`freqKeys, this`freqIter
      ensures Valid()
      ensures freqMap == FreqOf(keyList) && freqIter == 0 && iter == |keyList|
    {
      // clear() leaves an empty table, whose first key is its end.
      freqMap := map[];
      freqKeys := [];
      freqIter := 0;
      Begin();
      while !End()
        invariant iter <= |keyList| && TableOrdered() && freqIter == 0
        invariant freqMap == FreqOf(keyList[..iter])
        decreases |keyList| - iter
        modifies this`iter, this`freqMap, this`freqKeys
      {
        ghost var counted := keyList[..iter + 1];
        Increment(keyList, iter, ColVal());
        Next();
        assert keyList[..iter] == counted;
      }
      assert keyList[..iter] == keyList;
    }

    /** One `freqMap[value]++`: operator[] enters a missing key, in key
        order, with count 0, and the count goes up by one. */
    method Increment(ghost vals: seq<string>, ghost i: nat, v: string)
      requires i < |vals| && v == vals[i]
      requires TableOrdered() && freqMap == FreqOf(vals[..i])
      modifies this`freqMap, this`freqKeys
      ensures TableOrdered() && freqMap == FreqOf(vals[..i + 1])
      ensures v in old(freqMap) ==> freqKeys == old(freqKeys)
      ensures v !in old(freqMap) ==> freqKeys == Insert(old(freqKeys), v)
    {
      assert vals[..i + 1] == vals[..i] + [v];
      CountOne(vals[..i], freqKeys, v);
      var c := CountOf(freqMap, v);
      if v !in freqMap {
        freqKeys := Insert(freqKeys, v);
      }
      freqMap := freqMap[v := c + 1];
    }

    /** mode: the most frequent value, the first in key order among ties. */
    method GetMode() returns (r: string)
      requires Valid()
      modifies this`iter, this`freqMap, this`freqKeys, this`freqIter, this`retStr
      ensures Valid()
      ensures Empty() ==> r == nullVal && unchanged(this)
      ensures !Empty() ==> freqMap == FreqOf(keyList) && iter == |keyList| && freqIter == |freqKeys| && IsFirstMode(keyList, r) && retStr == r
    {
      if Empty() {
        return nullVal;
      }
      MakeFreqMap();
      assert keyList[0] in Elems(keyList);
      var maxIdx := ScanMostFrequent();
      r := freqKeys[maxIdx];
      TableMode(keyList, freqMap, freqKeys, maxIdx);
      retStr := r;
    }

    /** The loop of mode: walks the table once and keeps the first key whose
        count beats every earlier one, starting from a count of 0. */
    method ScanMostFrequent() returns (maxIdx: int)
      requires freqMap.Keys == Elems(freqKeys) && freqIter == 0 && |freqKeys| > 0
      requires forall k :: k in freqMap ==> freqMap[k] >= 1
      modifies this`freqIter
      ensures freqIter == |freqKeys| && 0 <= maxIdx < |freqKeys|
      ensures forall j :: 0 <= j < |freqKeys| ==> freqMap[freqKeys[j]] <= freqMap[freqKeys[maxIdx]]
      ensures forall j :: 0 <= j < maxIdx ==> freqMap[freqKeys[j]] < freqMap[freqKeys[maxIdx]]
    {
      maxIdx := 0;
      var maxVal := 0;
      while freqIter != |freqKeys|
        invariant freqIter <= |freqKeys| && 0 <= maxIdx < |freqKeys|
        invariant freqIter == 0 ==> maxIdx == 0 && maxVal == 0
        invariant freqIter > 0 ==> maxIdx < freqIter && maxVal == freqMap[freqKeys[maxIdx]]
        invariant forall j :: 0 <= j < freqIter ==> freqMap[freqKeys[j]] <= maxVal
        invariant forall j :: 0 <= j < maxIdx ==> freqMap[freqKeys[j]] < maxVal
        decreases |freqKeys| - freqIter
        modifies this`freqIter
      {
        assert freqKeys[freqIter] in Elems(freqKeys);
        if freqMap[freqKeys[freqIter]] > maxVal {
          maxIdx := freqIter;
          maxVal := freqMap[freqKeys[freqIter]];
        }
        freqIter := freqIter + 1;
      }
    }

    /** antimode: the least frequent value, the first in key order among ties. */
    method GetAntiMode() returns (r: string)
      requires Valid()
      modifies this`iter, this`freqMap, this`freqKeys, this`freqIter, this`retStr
      ensures Valid()
      ensures Empty() ==> r == nullVal && unchanged(this)
      ensures !Empty() ==> freqMap == FreqOf(keyList) && iter == |keyList| && freqIter == |freqKeys| && IsFirstAntiMode(keyList, r) && retStr == r
    {
      if Empty() {
        return nullVal;
      }
      MakeFreqMap();
      assert keyList[0] in Elems(keyList);
      forall k | k in freqMap ensures freqMap[k] < INT_MAX {
        // No count reaches INT_MAX, so the first key always replaces the seed.
        OccurrencesAtMostLength(keyList, k);
      }
      var minIdx := ScanLeastFrequent();
      r := freqKeys[minIdx];
      TableAntiMode(keyList, freqMap, freqKeys, minIdx);
      retStr := r;
    }

    /** The loop of antimode: walks the table once and keeps the first key
        whose count is below every earlier one, starting from INT_MAX. */
    method ScanLeastFrequent() returns (minIdx: int)
      requires freqMap.Keys == Elems(freqKeys) && freqIter == 0 && |freqKeys| > 0
      requires forall k :: k in freqMap ==> freqMap[k] < INT_MAX
      modifies this`freqIter
      ensures freqIter == |freqKeys| && 0 <= minIdx < |freqKeys|
      ensures forall j :: 0 <= j < |freqKeys| ==> freqMap[freqKeys[minIdx]] <= freqMap[freqKeys[j]]
      ensures forall j :: 0 <= j < minIdx ==> freqMap[freqKeys[minIdx]] < freqMap[freqKeys[j]]
    {
      minIdx := 0;
      var minVal := INT_MAX;
      while freqIter != |freqKeys|
        invariant freqIter <= |freqKeys| && 0 <= minIdx < |freqKeys|
        invariant freqIter == 0 ==> minIdx == 0 && minVal == INT_MAX
        invariant freqIter > 0 ==> minIdx < freqIter && minVal == freqMap[freqKeys[minIdx]]
        invariant forall j :: 0 <= j < freqIter ==> freqMap[freqKeys[j]] >= minVal
        invariant forall j :: 0 <= j < minIdx ==> freqMap[freqKeys[j]] > minVal
        decreases |freqKeys| - freqIter
        modifies this`freqIter
      {
        assert freqKeys[freqIter] in Elems(freqKeys);
        if freqMap[freqKeys[freqIter]] < minVal {
          minIdx := freqIter;
          minVal := freqMap[freqKeys[freqIter]];
        }
        freqIter := freqIter + 1;
      }
    }

    /** distinct: every value once, in key order, separated by the delimiter. */
    method GetDistinct() returns (r: string)
      requires Valid()
      modifies this`iter, this`freqMap, this`freqKeys, this`freqIter, this`retStr
      ensures Valid()
      ensures Empty() ==> r == nullVal && unchanged(this)
      ensures !Empty() ==> freqMap == FreqOf(keyList) && iter == |keyList| && freqIter == |freqKeys| && (forall v :: v in freqKeys <==> v in keyList)
      ensures !Empty() ==> r == Join(freqKeys, delimStr) && retStr == r
    {
      if Empty() {
        return nullVal;
      }
      MakeFreqMap();
      r := WriteKeys();
      assert forall v :: v in freqKeys <==> v in Elems(freqKeys);
    }

    /** The loop of distinct: every key of the table, the delimiter before
        all but the first. */
    method WriteKeys() returns (r: string)
      requires freqIter == 0
      modifies this`freqIter, this`retStr
      ensures freqIter == |freqKeys|
      ensures r == retStr == Join(freqKeys, delimStr)
    {
      retStr := "";
      while freqIter != |freqKeys|
        invariant freqIter <= |freqKeys|
        invariant retStr == Join(freqKeys[..freqIter], delimStr)
        decreases |freqKeys| - freqIter
        modifies this`freqIter, this`retStr
      {
        JoinStep(freqKeys, freqIter, retStr, delimStr);
        if freqIter != 0 {
          retStr := retStr + delimStr;
        }
        retStr := retStr + freqKeys[freqIter];
        freqIter := freqIter + 1;
      }
      assert freqKeys[..freqIter] == freqKeys;
      r := retStr;
    }

    /** distinct_only: the values that occur once, in key order.  The
        delimiter goes before every such value but the table's first key, so
        the text starts with a stray delimiter when the first key repeats and
        a later one does not. */
    method GetDistinctOnly() returns (r: string)
      requires Valid()
      modifies this`iter, this`freqMap, this`freqKeys, this`freqIter, this`retStr
      ensures Valid()
      ensures Empty() ==> r == nullVal && unchanged(this)
      ensures !Empty() ==> freqMap == FreqOf(keyList) && iter == |keyList| && freqIter == |freqKeys|
      ensures !Empty() ==> forall v :: v in Uniques(freqKeys, freqMap) <==> Occurrences(keyList, v) == 1
      ensures !Empty() ==> r == StrayDelimiter(freqKeys, freqMap, delimStr)
                                + DistinctOnlyJoined(freqKeys, freqMap, delimStr)
      ensures !Empty() ==> retStr == r
    {
      if Empty() {
        return nullVal;
      }
      MakeFreqMap();
      r := WriteUniques();
      DistinctOnlyAsWrittenShape(freqKeys, freqMap, delimStr);
      forall v ensures v in Uniques(freqKeys, freqMap) <==> Occurrences(keyList, v) == 1 {
        assert v in freqKeys <==> v in Elems(freqKeys);
      }
    }

    /** The loop of distinct_only: every key counted once, with the
        delimiter written before it unless it is the table's first key. */
    method WriteUniques() returns (r: string)
      requires freqMap.Keys == Elems(freqKeys) && freqIter == 0
      modifies this`freqIter, this`retStr
      ensures freqIter == |freqKeys|
      ensures r == retStr == DistinctOnlyAsWritten(freqKeys, freqMap, delimStr)
    {
      retStr := "";
      while freqIter != |freqKeys|
        invariant freqIter <= |freqKeys| && freqMap.Keys == Elems(freqKeys)
        invariant retStr == DistinctOnlyAsWritten(freqKeys[..freqIter], freqMap, delimStr)
        decreases |freqKeys| - freqIter
        modifies this`freqIter, this`retStr
      {
        DistinctOnlyStep(freqKeys, freqMap, freqIter, retStr, delimStr);
        var k := freqKeys[freqIter];
        assert k in Elems(freqKeys);
        if freqMap[k] == 1 {
          if freqIter != 0 {
            retStr := retStr + delimStr;
          }
          retStr := retStr + k;
        }
        freqIter := freqIter + 1;
      }
      assert freqKeys[..freqIter] == freqKeys;
      r := retStr;
    }

    /** count_distinct: the number of different values, between 1 and the
        number of records, and equal to it exactly when no value repeats. */
    method GetCountDistinct() returns (n: uint32)
      requires Valid()
      modifies this`iter, this`freqMap, this`freqKeys, this`freqIter
      ensures Valid()
      ensures Empty() ==> n == 0 && unchanged(this)
      ensures !Empty() ==> freqMap == FreqOf(keyList) && iter == |keyList| && freqIter == 0
      ensures !Empty() ==> n as int == |Elems(keyList)|
      ensures !Empty() ==> 1 <= n as int <= |keyList|
      ensures !Empty() ==> (n as int == |keyList| <==> AllDifferent(keyList))
    {
      if Empty() {
        return 0;
      }
      MakeFreqMap();
      DistinctCountBounds(keyList);
      return |freqMap| as uint32;
    }

    // Joining the values.

    /** collapse: every value in group order, separated by the engine's
        delimiter; the argument is not used. */
    method GetCollapse(delimiter: string) returns (r: string)
      requires Valid()
      modifies this`iter, this`retStr
      ensures Valid()
      ensures Empty() ==> r == nullVal && unchanged(this)
      ensures !Empty() ==> r == Join(keyList, delimStr) && retStr == r && iter == |keyList|
    {
      if Empty() {
        return nullVal;
      }
      retStr := "";
      var i := 0;
      Begin();
      while !End()
        invariant Valid() && i == iter
        invariant retStr == Join(keyList[..iter], delimStr)
        decreases |keyList| - iter
        modifies this`iter, this`retStr
      {
        JoinStep(keyList, iter, retStr, delimStr);
        if i > 0 {
          retStr := retStr + delimStr;
        }
        retStr := retStr + ColVal();
        i := i + 1;
        Next();
      }
      assert keyList[..iter] == keyList;
      return retStr;
    }

    /** concat: collapse with the delimiter swapped for "" and then restored,
        which is the values one after the other. */
    method GetConcat() returns (r: string)
      requires Valid()
      modifies this`iter, this`retStr, this`delimStr
      ensures Valid() && delimStr == old(delimStr)
      ensures Empty() ==> r == nullVal && unchanged(this)
      ensures !Empty() ==> r == Flatten(keyList) && retStr == r && iter == |keyList|
    {
      if Empty() {
        return nullVal;
      }
      var oldDelimStr := delimStr;
      delimStr := "";
      var _ := GetCollapse(delimStr);
      delimStr := oldDelimStr;
      JoinEmptyDelimiter(keyList);
      return retStr;
    }

    // The histograms.

    /** freq_desc / freq_asc: the (count, value) pairs of the table put into
        a multimap ordered by count, then written out as `value:count`
        entries separated by the delimiter.  The multimap holds each pair
        once, ordered by count and, among equal counts, by value. */
    method GetFreq(desc: bool) returns (r: string)
      requires Valid()
      modifies this`iter, this`freqMap, this`freqKeys, this`freqIter, this`retStr
      ensures Valid()
      ensures Empty() ==> r == nullVal && unchanged(this)
      ensures !Empty() ==> freqMap == FreqOf(keyList) && iter == |keyList| && freqIter == |freqKeys|
      ensures !Empty() ==> r == Join(RenderAll(Hist(freqKeys, freqMap, desc)), delimStr) && retStr == r
      ensures !Empty() ==> Ordered(Hist(freqKeys, freqMap, desc), desc)
      ensures !Empty() ==> multiset(Hist(freqKeys, freqMap, desc)) == multiset(Entries(freqKeys, freqMap))
    {
      if Empty() {
        return nullVal;
      }
      MakeFreqMap();
      var hist := FillHist(desc);
      HistOrdered(freqKeys, freqMap, desc);
      r := WriteEntries(hist);
    }

    /** The first loop of getFreqDesc / getFreqAsc: every (count, key) pair of
        the table, in key order, inserted into the multimap. */
    method FillHist(desc: bool) returns (hist: seq<Entry>)
      requires freqMap.Keys == Elems(freqKeys) && freqIter == 0
      modifies this`freqIter
      ensures freqIter == |freqKeys|
      ensures hist == Hist(freqKeys, freqMap, desc)
    {
      hist := [];
      while freqIter != |freqKeys|
        invariant freqIter <= |freqKeys| && freqMap.Keys == Elems(freqKeys)
        invariant hist == Hist(freqKeys[..freqIter], freqMap, desc)
        decreases |freqKeys| - freqIter
        modifies this`freqIter
      {
        HistStep(freqKeys, freqMap, freqIter, desc);
        var k := freqKeys[freqIter];
        assert k in Elems(freqKeys);
        hist := HistInsert(hist, (freqMap[k], k), desc);
        freqIter := freqIter + 1;
      }
      assert freqKeys[..freqIter] == freqKeys;
    }

    /** The second loop: the multimap's entries as `value:count`, separated
        by the delimiter. */
    method WriteEntries(hist: seq<Entry>) returns (r: string)
      modifies this`retStr
      ensures r == retStr == Join(RenderAll(hist), delimStr)
    {
      ghost var parts := RenderAll(hist);
      retStr := "";
      for j := 0 to |hist|
        modifies this`retStr
        invariant retStr == Join(parts[..j], delimStr)
      {
        JoinStep(parts, j, retStr, delimStr);
        if j != 0 {
          retStr := retStr + delimStr;
        }
        // The value, ":" and the count, appended one after the other.
        retStr := retStr + RenderEntry(hist[j]);
      }
      assert parts[..|hist|] == parts;
      r := retStr;
    }

    method GetFreqDesc() returns (r: string)
      requires Valid()
      modifies this`iter, this`freqMap, this`freqKeys, this`freqIter, this`retStr
      ensures Valid()
      ensures Empty() ==> r == nullVal && unchanged(this)
      ensures !Empty() ==> freqMap == FreqOf(keyList) && iter == |keyList| && freqIter == |freqKeys|
      ensures !Empty() ==> r == Join(RenderAll(Hist(freqKeys, freqMap, true)), delimStr) && retStr == r
      ensures !Empty() ==> Ordered(Hist(freqKeys, freqMap, true), true)
    {
      r := GetFreq(true);
    }

    method GetFreqAsc() returns (r: string)
      requires Valid()
      modifies this`iter, this`freqMap, this`freqKeys, this`freqIter, this`retStr
      ensures Valid()
      ensures Empty() ==> r == nullVal && unchanged(this)
      ensures !Empty() ==> freqMap == FreqOf(keyList) && iter == |keyList| && freqIter == |freqKeys|
      ensures !Empty() ==> r == Join(RenderAll(Hist(freqKeys, freqMap, false)), delimStr) && retStr == r
      ensures !Empty() ==> Ordered(Hist(freqKeys, freqMap, false), false)
    {
      r := GetFreq(false);
    }

    // Single values.

    /** first: the value of the first record. */
    method GetFirst() returns (r: string)
      requires Valid()
      modifies this`iter
      ensures Valid()
      ensures Empty() ==> r == nullVal && unchanged(this)
      ensures !Empty() ==> r == keyList[0] && iter == 0
    {
      if Empty() {
        return nullVal;
      }
      Begin();
      return ColVal();
    }

    /** last: the value of the last record, reached by stepping the cursor
        count - 1 times. */
    method GetLast() returns (r: string)
      requires Valid()
      modifies this`iter
      ensures Valid()
      ensures Empty() ==> r == nullVal && unchanged(this)
      ensures !Empty() ==> r == keyList[|keyList| - 1] && iter == |keyList| - 1
    {
      if Empty() {
        return nullVal;
      }
      Begin();
      var i := 0;
      while i < GetCount() as int - 1
        invariant Valid() && iter == i <= |keyList| - 1
        modifies this`iter
      {
        Next();
        i := i + 1;
      }
      return ColVal();
    }

    // The sortable arrays.

    /** Copies the numeric or the textual values into a freshly sized array,
        in group order, then sorts it unless asked not to. */
    method ToArray(useNum: bool, sortVal: SortType)
      requires Valid()
      modifies this`iter, this`numArray, this`qsArray
      ensures Valid() && iter == |keyList|
      ensures useNum ==> fresh(numArray) && qsArray == old(qsArray)
      ensures useNum ==> multiset(numArray[..]) == multiset(Values())
      ensures useNum && sortVal == Unsorted ==> numArray[..] == Values()
      ensures useNum && sortVal == Asc ==> SortedBy(numArray[..], Ascending)
      ensures useNum && sortVal == Desc ==> SortedBy(numArray[..], Descending)
      ensures !useNum ==> fresh(qsArray) && numArray == old(numArray)
      ensures !useNum ==> multiset(qsArray[..]) == multiset(keyList)
      ensures !useNum && sortVal == Unsorted ==> qsArray[..] == keyList
      ensures !useNum && sortVal == Asc ==> SortedBy(qsArray[..], TextAscending)
      ensures !useNum && sortVal == Desc ==> SortedBy(qsArray[..], TextDescending)
    {
      if useNum {
        FillNumArray();
      } else {
        FillTextArray();
      }
      if sortVal != Unsorted {
        SortArray(useNum, sortVal == Asc);
      }
    }

    /** The numeric branch of toArray's loop: a new array holding every
        value as a number, in group order. */
    method FillNumArray()
      requires Valid()
      modifies this`iter, this`numArray
      ensures Valid() && iter == |keyList|
      ensures fresh(numArray) && numArray[..] == Values()
    {
      numArray := new real[|keyList|];
      var i := 0;
      Begin();
      while !End()
        invariant Valid() && i == iter && fresh(numArray) && numArray.Length == |keyList|
        invariant numArray[..i] == Values()[..i]
        decreases |keyList| - iter
        modifies this`iter, numArray
      {
        numArray[i] := ColValNum();
        i := i + 1;
        Next();
      }
      assert numArray[..] == numArray[..i] && Values()[..i] == Values();
    }

    /** The textual branch of toArray's loop: a new array holding every
        value as it stands, in group order. */
    method FillTextArray()
      requires Valid()
      modifies this`iter, this`qsArray
      ensures Valid() && iter == |keyList|
      ensures fresh(qsArray) && qsArray[..] == keyList
    {
      qsArray := new string[|keyList|];
      var i := 0;
      Begin();
      while !End()
        invariant Valid() && i == iter && fresh(qsArray) && qsArray.Length == |keyList|
        invariant qsArray[..i] == keyList[..i]
        decreases |keyList| - iter
        modifies this`iter, qsArray
      {
        qsArray[i] := ColVal();
        i := i + 1;
        Next();
      }
      assert qsArray[..] == qsArray[..i] && keyList[..i] == keyList;
    }

    /** `std::sort` on one of the arrays, ascending or descending: afterwards
        it holds the same values, in order. */
    method SortArray(useNum: bool, ascOrder: bool)
      modifies if useNum then {numArray} else {}, if useNum then {} else {qsArray}
      ensures useNum ==> multiset(numArray[..]) == multiset(old(numArray[..]))
      ensures useNum ==> SortedBy(numArray[..], if ascOrder then Ascending else Descending)
      ensures !useNum ==> multiset(qsArray[..]) == multiset(old(qsArray[..]))
      ensures !useNum ==> SortedBy(qsArray[..], if ascOrder then TextAscending else TextDescending)
    {
      if useNum {
        var le := if ascOrder then Ascending else Descending;
        RealOrders();
        var sorted := SortBy(numArray[..], le);
        SortBySorted(numArray[..], le);
        assert |sorted| == |multiset(sorted)| == numArray.Length;
        Overwrite(numArray, sorted);
      } else {
        var le := if ascOrder then TextAscending else TextDescending;
        TextOrders();
        var sorted := SortBy(qsArray[..], le);
        SortBySorted(qsArray[..], le);
        assert |sorted| == |multiset(sorted)| == qsArray.Length;
        Overwrite(qsArray, sorted);
      }
    }
  }

  /** Copies `s` over the elements of `a`, the way the sort leaves its
      result in the array it sorted. */
  method Overwrite<T>(a: array<T>, s: seq<T>)
    requires |s| == a.Length
    modifies a
    ensures a[..] == s
  {
    forall i | 0 <= i < a.Length {
      a[i] := s[i];
    }
  }
}
