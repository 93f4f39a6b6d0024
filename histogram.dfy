/** The reverse frequency map behind freq_desc and freq_asc: a multimap from
    count to value, filled from the frequency table in key order and read
    back in count order, rendered as `value:count` entries. */
module Histogram {
  import opened Lex
  import opened Text
  import opened Freq

  /** One multimap element: (count, value). */
  type Entry = (int, string)

  /** The multimap's key comparison: `greater<int>` for freq_desc, `less<int>` for freq_asc. */
  predicate CountBefore(a: int, b: int, desc: bool) {
    if desc then a > b else a < b
  }

  /** `multimap::insert`: the new element goes after every element whose
      count is equivalent to its own, before the first one that sorts after it. */
  function HistInsert(h: seq<Entry>, e: Entry, desc: bool): (r: seq<Entry>)
    ensures multiset(r) == multiset(h) + multiset{e}
  {
    if h == [] then [e]
    else if CountBefore(e.0, h[0].0, desc) then [e] + h
    else
      assert h == [h[0]] + h[1..];
      [h[0]] + HistInsert(h[1..], e, desc)
  }

  /** The multimap after inserting (count, key) for every key of the table, in key order. */
  function Hist(ks: seq<string>, m: map<string, int>, desc: bool): seq<Entry> {
    if ks == [] then []
    else
      var k := ks[|ks| - 1];
      HistInsert(Hist(ks[..|ks| - 1], m, desc), (CountOf(m, k), k), desc)
  }

  /** One step of the loop that fills the multimap. */
  lemma HistStep(ks: seq<string>, m: map<string, int>, i: nat, desc: bool)
    requires i < |ks|
    ensures Hist(ks[..i + 1], m, desc) == HistInsert(Hist(ks[..i], m, desc), (CountOf(m, ks[i]), ks[i]), desc)
  {
    assert ks[..i + 1][..i] == ks[..i];
  }

  /** The table's (count, key) pairs in key order. */
  function Entries(ks: seq<string>, m: map<string, int>): (es: seq<Entry>)
    ensures |es| == |ks|
    ensures forall e :: e in es <==> e.1 in ks && e.0 == CountOf(m, e.1)
  {
    if ks == [] then []
    else
      var k := ks[|ks| - 1];
      assert forall x :: x in ks <==> x in ks[..|ks| - 1] || x == k by {
        assert ks == ks[..|ks| - 1] + [k];
      }
      Entries(ks[..|ks| - 1], m) + [(CountOf(m, k), k)]
  }

  /** The order the histogram is read in: by count, and among equal counts
      by value (the order in which the table supplied them). */
  ghost predicate EntryBefore(x: Entry, y: Entry, desc: bool) {
    CountBefore(x.0, y.0, desc) || (x.0 == y.0 && Less(x.1, y.1))
  }

  ghost predicate Ordered(h: seq<Entry>, desc: bool) {
    forall i, j :: 0 <= i < j < |h| ==> EntryBefore(h[i], h[j], desc)
  }

  lemma {:induction false} HistInsertOrdered(h: seq<Entry>, e: Entry, desc: bool)
    requires Ordered(h, desc)
    requires forall x :: x in h ==> Less(x.1, e.1)
    ensures Ordered(HistInsert(h, e, desc), desc)
  {
    if h != [] && !CountBefore(e.0, h[0].0, desc) {
      HistInsertOrdered(h[1..], e, desc);
      var tail := HistInsert(h[1..], e, desc);
      forall j | 0 <= j < |tail| ensures EntryBefore(h[0], tail[j], desc) {
        assert tail[j] in multiset(tail);
        if tail[j] != e {
          assert tail[j] in h[1..];
        }
      }
    }
  }

  /** freq_desc / freq_asc report every entry of the frequency table exactly
      once, ordered by count (descending / ascending), equal counts in
      ascending value order. */
  lemma {:induction false} HistOrdered(ks: seq<string>, m: map<string, int>, desc: bool)
    requires StrictlySorted(ks)
    ensures Ordered(Hist(ks, m, desc), desc)
    ensures multiset(Hist(ks, m, desc)) == multiset(Entries(ks, m))
  {
    if ks != [] {
      var init := ks[..|ks| - 1];
      var k := ks[|ks| - 1];
      HistOrdered(init, m, desc);
      EarlierKeys(ks, m, desc);
      HistInsertOrdered(Hist(init, m, desc), (CountOf(m, k), k), desc);
    }
  }

  /** Every entry already in the histogram has a key that sorts before the
      key inserted next. */
  lemma EarlierKeys(ks: seq<string>, m: map<string, int>, desc: bool)
    requires StrictlySorted(ks) && ks != []
    requires multiset(Hist(ks[..|ks| - 1], m, desc)) == multiset(Entries(ks[..|ks| - 1], m))
    ensures forall x :: x in Hist(ks[..|ks| - 1], m, desc) ==> Less(x.1, ks[|ks| - 1])
  {
    var init := ks[..|ks| - 1];
    forall x | x in Hist(init, m, desc) ensures Less(x.1, ks[|ks| - 1]) {
      assert x in multiset(Hist(init, m, desc));
      assert x in Entries(init, m);
      var i :| 0 <= i < |init| && init[i] == x.1;
      assert ks[i] == init[i];
    }
  }

  /** One histogram entry as `value:count`. */
  function RenderEntry(e: Entry): string {
    e.1 + ":" + IntText(e.0)
  }

  /** Each entry of the multimap rendered in turn. */
  function RenderAll(h: seq<Entry>): seq<string> {
    seq(|h|, i requires 0 <= i < |h| => RenderEntry(h[i]))
  }
}
