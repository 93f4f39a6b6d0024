# KeyListOps in Dafny

A model of bedtools' grouped-column aggregation engine, the `KeyListOps`
class of `src/utils/KeyListOps/KeyListOps.cpp`. An engine is attached to one
group of records. It computes one statistic per call over a chosen column of
that group, such as sum, mean, stddev, median, mode, distinct or freq_desc.

The model keeps the class's imperative shape. `Aggregation.KeyListOps` is a
Dafny class whose fields stand for the C++ members:

- `keyList` is the column values of the group, in group order.
- `iter` is the group cursor.
- `retStr` is the scratch result string.
- `opCodes` is the name table.
- `freqMap` together with `freqKeys` and `freqIter` is the frequency table and its iterator.
- `numArray` and `qsArray` are the sortable arrays.

Every statistic is a method that walks the group with `Begin`/`End`/`Next`
loops, clears and rebuilds the frequency table and scratch string, and fills
and sorts the arrays in place. Each method is proved against a specification
function of the group:

- `Total`, `MeanOf`, `Variance`, `SampleVariance` and `MedianOfSorted` for the numbers.
- `ScanMin`/`ScanMax` for the seeded scans, with `MaxElement` as the true maximum.
- `FreqOf`, `IsFirstMode`/`IsFirstAntiMode` and `Uniques` for the frequency table.
- `Join` and `Flatten` for the joined text.
- `Hist` and `Entries` for the histograms.
- `SortedBy` and `multiset` for the arrays.

The properties the engine promises are proved about those functions as lemmas:

- the op table;
- the empty-group sentinels;
- the tie-breaks of mode and antimode;
- the median splitting the group;
- sorted permutations;
- the relation between stddev and sample_stddev;
- the distinct_only quirk and the DBL_MIN seed of max/absmax.

Modules:

- `OpCodes`: the operation names and codes.
- `Lex`: byte-wise string order and sorted key lists.
- `Sorting`: the sort postcondition.
- `Numeric`: exact-real statistics.
- `Freq`: the frequency table.
- `Histogram`: the freq_asc/freq_desc multimap.
- `Text`: joining and decimal text.
- `Aggregation`: the engine class.

## Model

| member | source | states |
|---|---|---|
| Aggregation.KeyListOps.Unattached | src/utils/KeyListOps/KeyListOps.cpp:13-22 | an engine with no group answers as on an empty group, with nullVal "." and delimiter ",", and its name table registers all 21 statistics |
| Aggregation.KeyListOps.constructor | src/utils/KeyListOps/KeyListOps.cpp:24-32 | an engine attached to a group has the cursor at the first record, nullVal "." and delimiter ",", and the full name table |
| Aggregation.KeyListOps.Init | src/utils/KeyListOps/KeyListOps.cpp:34-56 | after init the name table holds each of the 21 statistic names and maps each one to the statistic of that name |
| OpCodes.RegisterAll | src/utils/KeyListOps/KeyListOps.cpp:35-55 | registering the 21 name/code pairs one by one yields a table where every statistic is present under its own name and no name maps to the wrong code |
| Aggregation.KeyListOps.GetOpCode | src/utils/KeyListOps/KeyListOps.cpp:63-71 | the lookup inverts OpName: a found code has the requested name, and INVALID comes back exactly when no statistic has that name |
| Aggregation.KeyListOps.GetCount | src/utils/KeyListOps/KeyListOps.cpp:220-222 | the count is the group size as a uint32, and it is 0 exactly for an empty group |
| Aggregation.KeyListOps.Empty | src/utils/KeyListOps/KeyListOps.cpp:75 | empty() holds exactly when the group has no values at all |
| Aggregation.KeyListOps.Begin | src/utils/KeyListOps/KeyListOps.cpp:78 | begin() puts the cursor on the first record, and the loop ends at once exactly when the group is empty |
| Aggregation.KeyListOps.End | src/utils/KeyListOps/KeyListOps.cpp:78 | end() holds exactly when the cursor is one past the last record |
| Aggregation.KeyListOps.Next | src/utils/KeyListOps/KeyListOps.cpp:78 | next() moves the cursor one record on, and reaches end() exactly when it was on the last record |
| Aggregation.KeyListOps.ColVal | src/utils/KeyListOps/KeyListOps.cpp:349-351 | the current record's text is a value of the group, the one at the cursor, and parses to the current number |
| Aggregation.KeyListOps.ColValNum | src/utils/KeyListOps/KeyListOps.cpp:353-355 | the current record's number is the parsed value at the cursor position |
| Aggregation.KeyListOps.GetSum | src/utils/KeyListOps/KeyListOps.cpp:74-82 | NaN with nothing changed on an empty group; otherwise the total of all values, with the cursor left at the end |
| Aggregation.KeyListOps.GetMean | src/utils/KeyListOps/KeyListOps.cpp:85-89 | NaN on an empty group; otherwise the total divided by the number of records |
| Aggregation.KeyListOps.SquareDiffs | src/utils/KeyListOps/KeyListOps.cpp:97-102 | the loop accumulates the squared deviations of every value from the given average |
| Aggregation.KeyListOps.GetStddev | src/utils/KeyListOps/KeyListOps.cpp:93-104 | NaN on an empty group; otherwise the population variance of the values, which is never negative |
| Aggregation.KeyListOps.GetSampleStddev | src/utils/KeyListOps/KeyListOps.cpp:106-117 | NaN on an empty group and on a one-record group (0/0); otherwise the sample variance, never negative |
| Numeric.VarianceFromSample | src/utils/KeyListOps/KeyListOps.cpp:93-117 | stddev equals sample_stddev times (N-1)/N for every group of two or more values |
| Numeric.VarianceNonNegative | src/utils/KeyListOps/KeyListOps.cpp:93-117 | neither variance is ever negative |
| Numeric.ConstantGroup | src/utils/KeyListOps/KeyListOps.cpp:85-104 | a group of equal values has that value as its mean and a stddev of 0 |
| Numeric.MeanBounds | src/utils/KeyListOps/KeyListOps.cpp:85-89 | the mean lies between any lower and upper bound of the values |
| Numeric.TotalBounds | src/utils/KeyListOps/KeyListOps.cpp:74-82 | a total of N values in [lo, hi] lies in [N*lo, N*hi] |
| Numeric.SquareDiffSumNonNegative | src/utils/KeyListOps/KeyListOps.cpp:98-102 | the accumulated squared deviations are never negative |
| Aggregation.KeyListOps.GetMedian | src/utils/KeyListOps/KeyListOps.cpp:120-135 | NaN on an empty group; otherwise the array is a new ascending permutation of the values, the result is its middle element or the mean of the two middle ones, and at least half of the values lie on each side of it |
| Numeric.MedianSplitsGroup | src/utils/KeyListOps/KeyListOps.cpp:125-134 | the median of any ascending permutation of the group has at least half of the values at or below it and at least half at or above it |
| Numeric.CountsOfPermutation | src/utils/KeyListOps/KeyListOps.cpp:125-134 | how many values lie at or below (or at or above) a threshold does not depend on their order |
| Numeric.SortedCounts | src/utils/KeyListOps/KeyListOps.cpp:127-133 | in an ascending array, the k-th element has at least k+1 values at or below it and at least N-k at or above it |
| Aggregation.KeyListOps.GetMin | src/utils/KeyListOps/KeyListOps.cpp:174-183 | NaN on an empty group; otherwise the scan seeded with DBL_MAX returns a value of the group that is at most every value |
| Aggregation.KeyListOps.GetAbsMin | src/utils/KeyListOps/KeyListOps.cpp:198-207 | NaN on an empty group; otherwise an absolute value from the group that is at most every absolute value |
| Aggregation.KeyListOps.ScanLeast | src/utils/KeyListOps/KeyListOps.cpp:177-182 | the min loop yields the DBL_MAX-seeded left-to-right minimum of the values or of their absolute values |
| Numeric.ScanMinIsLeast | src/utils/KeyListOps/KeyListOps.cpp:177-182 | the seeded minimum scan is at most the seed and every value, and is the seed or one of the values |
| Numeric.ScanMinFromDblMax | src/utils/KeyListOps/KeyListOps.cpp:177 | with the DBL_MAX seed and finite values, the scan's result is always a value of the group |
| Aggregation.KeyListOps.GetMax | src/utils/KeyListOps/KeyListOps.cpp:186-195 | NaN on an empty group; otherwise the largest value when that exceeds DBL_MIN, and DBL_MIN itself otherwise |
| Aggregation.KeyListOps.GetAbsMax | src/utils/KeyListOps/KeyListOps.cpp:209-218 | NaN on an empty group; otherwise the largest absolute value when that exceeds DBL_MIN, and DBL_MIN otherwise |
| Aggregation.KeyListOps.ScanGreatest | src/utils/KeyListOps/KeyListOps.cpp:189-194 | the max loop yields the DBL_MIN-seeded left-to-right maximum of the values or of their absolute values |
| Numeric.ScanMaxIsGreatest | src/utils/KeyListOps/KeyListOps.cpp:189-194 | the seeded maximum scan is at least the seed and every value, and is the seed or one of the values |
| Numeric.ScanMaxOfSeed | src/utils/KeyListOps/KeyListOps.cpp:189-194 | the seeded maximum scan is the larger of the seed and the true maximum |
| Numeric.MaxElement | src/utils/KeyListOps/KeyListOps.cpp:186-195 | the evidently intended max: a value of the group that is at least every value |
| Numeric.MaxSeedNotAnElement | src/utils/KeyListOps/KeyListOps.cpp:189 | on the group "-1" the DBL_MIN-seeded scan reports DBL_MIN, which is not in the group, where -1 is the maximum |
| Numeric.AbsMaxSeedNotAnElement | src/utils/KeyListOps/KeyListOps.cpp:212 | on the group "0" absmax reports DBL_MIN, not the largest absolute value 0 |
| Numeric.AbsAll | src/utils/KeyListOps/KeyListOps.cpp:203 | the absolute values keep the group's length and order, one per value |
| Aggregation.KeyListOps.MakeFreqMap | src/utils/KeyListOps/KeyListOps.cpp:397-405 | the rebuilt table maps every value of the group, and only those, to its number of occurrences, and lists its keys in ascending order; the table iterator is at the first key |
| Aggregation.KeyListOps.Increment | src/utils/KeyListOps/KeyListOps.cpp:402 | one increment turns the table of a prefix of the group into the table of the prefix one record longer, entering a new key in sorted position |
| Freq.FreqOf | src/utils/KeyListOps/KeyListOps.cpp:397-405 | the frequency table's keys are exactly the group's values and every count is at least 1 |
| Freq.FreqOfSnoc | src/utils/KeyListOps/KeyListOps.cpp:401-403 | counting one more record raises that value's count by one and changes no other count |
| Freq.CountOne | src/utils/KeyListOps/KeyListOps.cpp:402 | `operator[]` then `++` on a sorted table yields the longer prefix's table, keeping the key list sorted and matching |
| Freq.CountsSumToLength | src/utils/KeyListOps/KeyListOps.cpp:397-405 | the counts of the table's keys add up to the number of records |
| Freq.OccurrencesAtMostLength | src/utils/KeyListOps/KeyListOps.cpp:163 | no count exceeds the group size, so the INT_MAX seed of antimode is always beaten |
| Lex.Insert | src/utils/KeyListOps/KeyListOps.cpp:402 | entering a key adds exactly that key to the key list |
| Lex.InsertSorted | src/utils/KeyListOps/KeyListOps.cpp:402 | entering a new key keeps the key list in strictly ascending order |
| Lex.SortedDistinct | src/utils/KeyListOps/KeyListOps.cpp:397-405 | a strictly ascending key list holds each key once |
| Lex.LessEqTotalOrder | src/utils/KeyListOps/KeyListOps.cpp:390-392 | byte-wise string comparison is a total order |
| Lex.SortedPosition | src/utils/KeyListOps/KeyListOps.cpp:146-151 | in the table's key order, a key that sorts before another is visited before it |
| Aggregation.KeyListOps.GetMode | src/utils/KeyListOps/KeyListOps.cpp:138-154 | nullVal on an empty group; otherwise a value with the highest count, the first in key order among ties, also left in retStr |
| Aggregation.KeyListOps.ScanMostFrequent | src/utils/KeyListOps/KeyListOps.cpp:144-151 | the loop stops on the first table position whose count is at least every count and above every earlier one |
| Freq.TableMode | src/utils/KeyListOps/KeyListOps.cpp:144-152 | the key found by that scan occurs at least as often as any value, and more often than every value that sorts before it |
| Freq.ModeUnique | src/utils/KeyListOps/KeyListOps.cpp:138-154 | the tie-break makes the mode a function of the group |
| Aggregation.KeyListOps.GetAntiMode | src/utils/KeyListOps/KeyListOps.cpp:156-172 | nullVal on an empty group; otherwise a value with the lowest count, the first in key order among ties |
| Aggregation.KeyListOps.ScanLeastFrequent | src/utils/KeyListOps/KeyListOps.cpp:162-169 | the loop stops on the first table position whose count is at most every count and below every earlier one |
| Freq.TableAntiMode | src/utils/KeyListOps/KeyListOps.cpp:162-170 | the key found by that scan occurs at most as often as any value that occurs, and less often than every value that sorts before it |
| Freq.AntiModeUnique | src/utils/KeyListOps/KeyListOps.cpp:156-172 | the tie-break makes the antimode a function of the group |
| Aggregation.KeyListOps.GetDistinct | src/utils/KeyListOps/KeyListOps.cpp:224-234 | nullVal on an empty group; otherwise every value of the group once, in key order, joined by the delimiter; a value is listed exactly when it occurs |
| Aggregation.KeyListOps.WriteKeys | src/utils/KeyListOps/KeyListOps.cpp:228-232 | the loop writes the table's keys joined by the delimiter |
| Aggregation.KeyListOps.GetDistinctOnly | src/utils/KeyListOps/KeyListOps.cpp:236-248 | nullVal on an empty group; otherwise the count-1 values joined by the delimiter, preceded by a stray delimiter exactly when the first key repeats and some later key does not; a value is listed exactly when it occurs once |
| Aggregation.KeyListOps.WriteUniques | src/utils/KeyListOps/KeyListOps.cpp:241-246 | the loop writes each count-1 key, with the delimiter before it unless it is the table's first key |
| Freq.Uniques | src/utils/KeyListOps/KeyListOps.cpp:243 | the values listed by distinct_only are exactly the table keys whose count is 1 |
| Freq.UniquesSnoc | src/utils/KeyListOps/KeyListOps.cpp:242-246 | one more key adds itself to the list of count-1 values exactly when its count is 1 |
| Freq.DistinctOnlyStep | src/utils/KeyListOps/KeyListOps.cpp:243-245 | one loop step skips a repeated key, or appends the delimiter (unless at the first key) and the key |
| Freq.DistinctOnlyAsWrittenShape | src/utils/KeyListOps/KeyListOps.cpp:236-248 | the text distinct_only builds is the intended joined list behind one stray delimiter exactly when the first key repeats and some count-1 key exists |
| Freq.DistinctOnlyLeadingDelimiter | src/utils/KeyListOps/KeyListOps.cpp:243-245 | on the group a, a, b distinct_only yields ",b" where "b" is intended |
| Freq.DistinctOnlyJoinedStartsWithValue | src/utils/KeyListOps/KeyListOps.cpp:236-248 | the intended distinct_only text begins with its first count-1 value, not with a delimiter |
| Aggregation.KeyListOps.GetCountDistinct | src/utils/KeyListOps/KeyListOps.cpp:251-256 | 0 on an empty group; otherwise the number of different values, between 1 and the group size, and equal to the size exactly when no value repeats |
| Freq.DistinctCountBounds | src/utils/KeyListOps/KeyListOps.cpp:251-256 | the table has one entry per different value: at least one for a non-empty group, at most the group size, and exactly the size when all values differ |
| Freq.ElemsBounds | src/utils/KeyListOps/KeyListOps.cpp:251-256 | the number of different values is at most the group size, at least 1 when it is non-empty, and equal to it exactly when no value repeats |
| Aggregation.KeyListOps.GetCollapse | src/utils/KeyListOps/KeyListOps.cpp:258-271 | nullVal on an empty group; otherwise every value in group order joined by the engine's delimiter, whatever the argument |
| Text.JoinStep | src/utils/KeyListOps/KeyListOps.cpp:264-268 | one loop step (a delimiter unless first, then the value) extends the joined text by one part |
| Text.JoinSnoc | src/utils/KeyListOps/KeyListOps.cpp:264-268 | joining one more part appends the delimiter and the part, except for the first part |
| Text.JoinLength | src/utils/KeyListOps/KeyListOps.cpp:258-271 | N joined parts have their total length plus N-1 delimiters |
| Aggregation.KeyListOps.GetConcat | src/utils/KeyListOps/KeyListOps.cpp:273-284 | nullVal on an empty group; otherwise all values one after the other, and the delimiter is restored afterwards |
| Text.JoinEmptyDelimiter | src/utils/KeyListOps/KeyListOps.cpp:279-283 | joining with the empty delimiter is plain concatenation |
| Text.FlattenLength | src/utils/KeyListOps/KeyListOps.cpp:273-284 | the concatenation is as long as all values together |
| Text.FlattenSnoc | src/utils/KeyListOps/KeyListOps.cpp:273-284 | concatenating one more value appends it |
| Aggregation.KeyListOps.GetFreq | src/utils/KeyListOps/KeyListOps.cpp:287-328 | nullVal on an empty group; otherwise the multimap holds every (count, value) pair of the table once, ordered by count and among equal counts by value, written as value:count entries joined by the delimiter |
| Aggregation.KeyListOps.GetFreqDesc | src/utils/KeyListOps/KeyListOps.cpp:287-306 | the histogram ordered by descending count |
| Aggregation.KeyListOps.GetFreqAsc | src/utils/KeyListOps/KeyListOps.cpp:308-328 | the histogram ordered by ascending count |
| Aggregation.KeyListOps.FillHist | src/utils/KeyListOps/KeyListOps.cpp:294-296 | the first loop inserts each table pair, in key order, into the multimap |
| Aggregation.KeyListOps.WriteEntries | src/utils/KeyListOps/KeyListOps.cpp:298-304 | the second loop writes every multimap entry as value:count, joined by the delimiter |
| Histogram.HistInsert | src/utils/KeyListOps/KeyListOps.cpp:295 | a multimap insertion adds exactly the new pair |
| Histogram.HistInsertOrdered | src/utils/KeyListOps/KeyListOps.cpp:295 | inserting a pair whose value sorts after every value present keeps the multimap ordered |
| Histogram.HistStep | src/utils/KeyListOps/KeyListOps.cpp:294-296 | one step of the fill loop inserts the next key's pair |
| Histogram.EarlierKeys | src/utils/KeyListOps/KeyListOps.cpp:294-296 | every pair already inserted has a value that sorts before the next key |
| Histogram.HistOrdered | src/utils/KeyListOps/KeyListOps.cpp:293-304 | the filled multimap is ordered by count, equal counts in ascending value order, and is a permutation of the table's pairs |
| Histogram.Entries | src/utils/KeyListOps/KeyListOps.cpp:294-296 | the table's pairs are exactly each key with its count |
| Text.DecimalText | src/utils/KeyListOps/KeyListOps.cpp:303 | a count is written as a non-empty string of decimal digits with no leading zero |
| Text.DecimalRoundTrip | src/utils/KeyListOps/KeyListOps.cpp:303 | reading the written count back gives the count |
| Aggregation.KeyListOps.GetFirst | src/utils/KeyListOps/KeyListOps.cpp:330-336 | nullVal on an empty group; otherwise the first record's value |
| Aggregation.KeyListOps.GetLast | src/utils/KeyListOps/KeyListOps.cpp:338-347 | nullVal on an empty group; otherwise the last record's value, with the cursor on it after count-1 steps |
| Aggregation.KeyListOps.ToArray | src/utils/KeyListOps/KeyListOps.cpp:357-378 | the chosen array is rebuilt as a permutation of the values: in group order when unsorted, otherwise ascending or descending; the other array is untouched |
| Aggregation.KeyListOps.FillNumArray | src/utils/KeyListOps/KeyListOps.cpp:360-366 | the numeric array is a new array of the parsed values in group order |
| Aggregation.KeyListOps.FillTextArray | src/utils/KeyListOps/KeyListOps.cpp:367-374 | the textual array is a new array of the values in group order |
| Aggregation.KeyListOps.SortArray | src/utils/KeyListOps/KeyListOps.cpp:380-395 | the chosen array is sorted in place by less or greater, and keeps the same values as many times |
| Aggregation.Overwrite | src/utils/KeyListOps/KeyListOps.cpp:384-393 | the sorted result is left in the vector's own storage: afterwards the array holds exactly the sorted sequence |
| Aggregation.TextOrders | src/utils/KeyListOps/KeyListOps.cpp:390-392 | the string orders for sorting up and down are total orders |
| Numeric.RealOrders | src/utils/KeyListOps/KeyListOps.cpp:384-386 | the numeric orders for sorting up and down are total orders |
| Sorting.SortBy | src/utils/KeyListOps/KeyListOps.cpp:384-393 | the sorted copy holds the same values as many times |
| Sorting.SortBySorted | src/utils/KeyListOps/KeyListOps.cpp:384-393 | under a total order the sorted copy is ordered and is a permutation of the input |
| Sorting.InsertBySorted | src/utils/KeyListOps/KeyListOps.cpp:384-393 | inserting into an ordered sequence keeps it ordered |
| Sorting.SortedPermutationUnique | src/utils/KeyListOps/KeyListOps.cpp:380-395 | two sorted permutations of the same values are equal, so every correct sort gives the same array |

## Left out

- src/pairToBed/pairToBed.h is not part of this model. It is file, BAM and overlap-search glue.
- The header `KeyListOps.h` is not part of this model. `freqMapType` is taken to be an ordered map from value to `int`, so its iterator visits keys in ascending byte-wise order, and mode/antimode ties go to the first key in that order. `histDescType`/`histAscType` are taken to be multimaps keyed by `greater<int>`/`less<int>`, whose `insert` places a new pair after the pairs with an equal count.
- `atof` is a function field `atof` of the class, not a model of the C library routine. The only assumption is that it returns finite doubles, within plus or minus DBL_MAX. NaN and infinite parse results are not modelled.
- Floating point is not modelled. sum, mean, stddev, sample_stddev and median are exact formulas over `real`, with no rounding, no `(float)` casts of the count and no overflow. The NaN sentinel is the `Stat.NaN` constructor, and the one-record sample_stddev 0/0 is reported as `Stat.NaN`.
- As the code computes them, stddev and sample_stddev are variances: no square root is taken.
- `abs` is taken to be the `double` overload (absolute value over reals).
- `RecordKeyList`, the column index and record field access are not modelled. A group is the sequence of its column values, and the unattached engine's empty list is the empty sequence.
- Returning references to `_retStr` and `_nullVal` is not modelled. The methods return the string value and leave it in `retStr` as well.
- The rendering of a count by `QuickString::append` is taken to be its decimal numeral (`Text.DecimalText`). The three appends of a histogram entry are a single append of the whole `value:count` piece.
- The algorithm inside `std::sort` is not modelled. Sorting is specified by its postcondition, a permutation ordered by the comparison. An insertion sort on sequences is the witness, copied back into the array.
- `vector::resize` is modelled as allocating a new array of the group's size, so aliasing with the previous buffer is not captured.
- Groups of INT_MAX or more records are excluded by the class invariant, so the `int` counters and the `uint32_t` count never wrap.
- Some loops of the source are separate helper methods. SquareDiffs (the loop shared by stddev and sample_stddev), ScanMostFrequent, ScanLeastFrequent, WriteKeys, WriteUniques, FillHist, WriteEntries, FillNumArray and FillTextArray each hold one loop of the source. ScanLeast is shared by the min and absmin loops and ScanGreatest by the max and absmax loops; a `useAbs` flag selects whether each value is taken as is or as its absolute value. Increment is not a loop: it is the `_freqMap[value]++` body of makeFreqMap's loop at line 402.
- freq_desc and freq_asc share one method, GetFreq, parameterised by the direction.
- The destructor is not modelled: it has no effect.

## Findings

| source | as written | input that shows it | evidently intended | confidence | as-written member | corrected member |
|---|---|---|---|---|---|---|
| src/utils/KeyListOps/KeyListOps.cpp:243-245 | distinct_only writes the delimiter before each count-1 value except the table's first key, even when nothing has been written yet | group a, a, b gives ",b" | "b": the count-1 values joined by the delimiter | high; not executed | Freq.DistinctOnlyLeadingDelimiter | Freq.DistinctOnlyJoinedStartsWithValue |
| src/utils/KeyListOps/KeyListOps.cpp:189-194 | max starts its scan from DBL_MIN, the smallest positive double, not from the lowest double | group "-1" gives 2.2e-308 | -1, the largest value | high; not executed | Numeric.MaxSeedNotAnElement | Numeric.MaxElement |
| src/utils/KeyListOps/KeyListOps.cpp:212-216 | absmax starts its scan from DBL_MIN, so an all-zero group never beats the seed | group "0" gives 2.2e-308 | 0, the largest absolute value | high; not executed | Numeric.AbsMaxSeedNotAnElement | Numeric.MaxElement |
