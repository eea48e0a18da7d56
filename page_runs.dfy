/**
  merge_adjacent of create_index.py: a list of page numbers becomes a list
  of items "b" (a single page) and "b-e" (the pages b to e), merging each
  run of numbers that go up by one.
 */
module PageRuns {
  import opened Results
  import opened PyStr

  /** The run of page numbers lo, lo + 1, ..., hi. */
  datatype Run = Run(lo: nat, hi: nat)

  /** format_item(beg, end): "beg-end" when beg < end, otherwise "beg". */
  function FormatItem(r: Run): string
  {
    if r.lo < r.hi then NatToString(r.lo) + "-" + NatToString(r.hi) else NatToString(r.lo)
  }

  /** Reads an item back: "b" is the run b..b and "b-e" the run b..e. */
  function ParseItem(item: string): Option<Run>
  {
    var (b, dash, e) := Partition(item, '-');
    match ParseNat(b)
    case Err(_) => None
    case Ok(lo) =>
      if dash == [] then Some(Run(lo, lo))
      else
        match ParseNat(e)
        case Err(_) => None
        case Ok(hi) => Some(Run(lo, hi))
  }

  /** The pages a run stands for. */
  function Span(r: Run): (pages: seq<nat>)
    ensures |pages| == if r.lo <= r.hi then r.hi - r.lo + 1 else 0
    ensures forall i :: 0 <= i < |pages| ==> pages[i] == r.lo + i
  {
    if r.lo > r.hi then [] else seq(r.hi - r.lo + 1, i => r.lo + i)
  }

  /** The pages an item names: "b" gives [b], "b-e" gives [b, ..., e]. */
  function Expand(item: string): seq<nat>
  {
    match ParseItem(item)
    case None => []
    case Some(r) => Span(r)
  }

  /** The pages the items name, in order. */
  function ExpandAll(items: seq<string>): seq<nat>
  {
    if items == [] then [] else Expand(items[0]) + ExpandAll(items[1..])
  }

  /**
    The runs merge_adjacent closes once the run beg..end is open and rest is
    still to be scanned: a number one above end extends the run, any other
    number closes it and opens a new one.
   */
  function RunsFrom(beg: nat, end: nat, rest: seq<nat>): seq<Run>
    decreases |rest|
  {
    if rest == [] then [Run(beg, end)]
    else if rest[0] == end + 1 then RunsFrom(beg, end + 1, rest[1..])
    else [Run(beg, end)] + RunsFrom(rest[0], rest[0], rest[1..])
  }

  /** The runs of a whole list. */
  function Runs(pages: seq<nat>): seq<Run>
  {
    if pages == [] then [] else RunsFrom(pages[0], pages[0], pages[1..])
  }

  function FormatAll(runs: seq<Run>): (items: seq<string>)
    ensures |items| == |runs|
    ensures forall i :: 0 <= i < |runs| ==> items[i] == FormatItem(runs[i])
  {
    seq(|runs|, i requires 0 <= i < |runs| => FormatItem(runs[i]))
  }

  /** What merge_adjacent returns for the list pages. */
  function Merged(pages: seq<nat>): seq<string>
  {
    FormatAll(Runs(pages))
  }

  predicate StrictlyIncreasing(s: seq<nat>)
  {
    forall i :: 0 <= i < |s| - 1 ==> s[i] < s[i + 1]
  }

  /** The Python list that merge_adjacent receives and pops from. */
  class PageList {
    var items: seq<nat>

    constructor (items: seq<nat>)
      ensures this.items == items
    {
      this.items := items;
    }
  }

  /**
    merge_adjacent(intlist): returns the items of the list and, through
    pop(0), removes the first element from the caller's list.
   */
  method MergeAdjacent(intlist: PageList) returns (strlist: seq<string>)
    modifies intlist
    ensures intlist.items == if old(intlist.items) == [] then [] else old(intlist.items)[1..]
    ensures strlist == Merged(old(intlist.items))
  {
    if |intlist.items| == 0 {
      return [];
    }
    ghost var pages := intlist.items;
    strlist := [];
    var beg := intlist.items[0];
    var end := beg;
    intlist.items := intlist.items[1..];
    var rest := intlist.items;
    ghost var runs: seq<Run> := [];
    for k := 0 to |rest|
      invariant intlist.items == rest
      invariant strlist == FormatAll(runs)
      invariant runs + RunsFrom(beg, end, rest[k..]) == Runs(pages)
    {
      var i := rest[k];
      RunsFromStep(runs, beg, end, rest[k..]);
      assert rest[k..][1..] == rest[k + 1..];
      if i == end + 1 {
        end := end + 1;
      } else {
        FormatAllSnoc(runs, Run(beg, end));
        strlist := strlist + [FormatItem(Run(beg, end))];
        runs := runs + [Run(beg, end)];
        beg, end := i, i;
      }
    }
    FormatAllSnoc(runs, Run(beg, end));
    strlist := strlist + [FormatItem(Run(beg, end))];
  }

  /** One number of the loop: one above end extends the open run, any other closes it and opens its own. */
  lemma RunsFromStep(runs: seq<Run>, beg: nat, end: nat, rest: seq<nat>)
    requires rest != []
    ensures rest[0] == end + 1 ==> runs + RunsFrom(beg, end, rest) == runs + RunsFrom(beg, end + 1, rest[1..])
    ensures rest[0] != end + 1 ==>
      runs + RunsFrom(beg, end, rest) == (runs + [Run(beg, end)]) + RunsFrom(rest[0], rest[0], rest[1..])
  {
    if rest[0] != end + 1 {
      assert runs + ([Run(beg, end)] + RunsFrom(rest[0], rest[0], rest[1..])) ==
        (runs + [Run(beg, end)]) + RunsFrom(rest[0], rest[0], rest[1..]);
    }
  }

  /** Formatting one more run adds its item at the end. */
  lemma FormatAllSnoc(runs: seq<Run>, r: Run)
    ensures FormatAll(runs + [r]) == FormatAll(runs) + [FormatItem(r)]
  {
  }

  /** Every run closed from an open run beg..end with beg <= end has lo <= hi. */
  lemma {:induction false} RunsFromProper(beg: nat, end: nat, rest: seq<nat>)
    requires beg <= end
    ensures |RunsFrom(beg, end, rest)| >= 1
    ensures RunsFrom(beg, end, rest)[0].lo == beg
    ensures forall i :: 0 <= i < |RunsFrom(beg, end, rest)| ==> RunsFrom(beg, end, rest)[i].lo <= RunsFrom(beg, end, rest)[i].hi
    decreases |rest|
  {
    if rest != [] {
      assert rest[1..] != [] ==> rest[1..][0] == rest[1];
      if rest[0] == end + 1 {
        RunsFromProper(beg, end + 1, rest[1..]);
      } else {
        RunsFromProper(rest[0], rest[0], rest[1..]);
      }
    }
  }

  /** Reading a formatted run back gives the run, and the item holds a dash exactly when lo < hi. */
  lemma ItemFacts(r: Run)
    requires r.lo <= r.hi
    ensures ParseItem(FormatItem(r)) == Some(r)
    ensures '-' in FormatItem(r) <==> r.lo < r.hi
  {
    var lo, hi := NatToString(r.lo), NatToString(r.hi);
    ParseNatToString(r.lo);
    ParseNatToString(r.hi);
    assert '-' !in lo by { assert forall i :: 0 <= i < |lo| ==> IsDigit(lo[i]); }
    if r.lo < r.hi {
      assert '-' !in hi by { assert forall i :: 0 <= i < |hi| ==> IsDigit(hi[i]); }
      PartitionAt(lo, hi, '-');
      assert (lo + "-" + hi)[|lo|] == '-';
    } else {
      PartitionAbsent(lo, '-');
    }
  }

  lemma {:induction false} PartitionAt(a: string, b: string, sep: char)
    requires sep !in a
    ensures Partition(a + [sep] + b, sep) == (a, [sep], b)
    decreases |a|
  {
    if a != [] {
      assert (a + [sep] + b)[1..] == a[1..] + [sep] + b;
      PartitionAt(a[1..], b, sep);
      assert a == [a[0]] + a[1..];
    }
  }

  lemma {:induction false} PartitionAbsent(a: string, sep: char)
    requires sep !in a
    ensures Partition(a, sep) == (a, "", "")
    decreases |a|
  {
    if a != [] {
      PartitionAbsent(a[1..], sep);
      assert a == [a[0]] + a[1..];
    }
  }

  /** The pages of a list of runs, in order. */
  function Flatten(runs: seq<Run>): seq<nat>
  {
    if runs == [] then [] else Span(runs[0]) + Flatten(runs[1..])
  }

  /** Expanding formatted runs gives the pages of the runs. */
  lemma {:induction false} ExpandFormatAll(runs: seq<Run>)
    requires forall i :: 0 <= i < |runs| ==> runs[i].lo <= runs[i].hi
    ensures ExpandAll(FormatAll(runs)) == Flatten(runs)
    decreases |runs|
  {
    if runs != [] {
      ItemFacts(runs[0]);
      assert FormatAll(runs)[1..] == FormatAll(runs[1..]);
      ExpandFormatAll(runs[1..]);
    }
  }

  /** The pages of the runs closed from beg..end and rest are beg..end followed by rest. */
  lemma {:induction false} RunsFromCover(beg: nat, end: nat, rest: seq<nat>)
    requires beg <= end
    ensures Flatten(RunsFrom(beg, end, rest)) == Span(Run(beg, end)) + rest
    decreases |rest|
  {
    if rest == [] {
      assert RunsFrom(beg, end, rest)[1..] == [];
    } else if rest[0] == end + 1 {
      RunsFromCover(beg, end + 1, rest[1..]);
      CoverExtend(beg, end, rest);
    } else {
      RunsFromCover(rest[0], rest[0], rest[1..]);
      CoverClose(beg, end, rest);
    }
  }

  /** A number one above end extends the open run, which then covers it. */
  lemma CoverExtend(beg: nat, end: nat, rest: seq<nat>)
    requires beg <= end && rest != [] && rest[0] == end + 1
    requires Flatten(RunsFrom(beg, end + 1, rest[1..])) == Span(Run(beg, end + 1)) + rest[1..]
    ensures Flatten(RunsFrom(beg, end, rest)) == Span(Run(beg, end)) + rest
  {
    var a := Span(Run(beg, end));
    SpanSnoc(beg, end);
    assert (a + [rest[0]]) + rest[1..] == a + ([rest[0]] + rest[1..]);
    assert [rest[0]] + rest[1..] == rest;
  }

  /** The run lo..hi + 1 is the run lo..hi followed by hi + 1. */
  lemma SpanSnoc(lo: nat, hi: nat)
    requires lo <= hi
    ensures Span(Run(lo, hi + 1)) == Span(Run(lo, hi)) + [hi + 1]
  {
  }

  /** Any other number closes the open run and opens its own. */
  lemma CoverClose(beg: nat, end: nat, rest: seq<nat>)
    requires beg <= end && rest != [] && rest[0] != end + 1
    requires Flatten(RunsFrom(rest[0], rest[0], rest[1..])) == Span(Run(rest[0], rest[0])) + rest[1..]
    ensures Flatten(RunsFrom(beg, end, rest)) == Span(Run(beg, end)) + rest
  {
    var runs := RunsFrom(beg, end, rest);
    var tail := RunsFrom(rest[0], rest[0], rest[1..]);
    assert runs == [Run(beg, end)] + tail;
    assert runs[0] == Run(beg, end) && runs[1..] == tail;
    assert Flatten(runs) == Span(Run(beg, end)) + Flatten(tail);
    assert Span(Run(rest[0], rest[0])) == [rest[0]];
    assert [rest[0]] + rest[1..] == rest;
  }

  /** Round trip: expanding the items of merge_adjacent(pages) and concatenating gives pages back. */
  lemma MergedRoundTrip(pages: seq<nat>)
    ensures ExpandAll(Merged(pages)) == pages
  {
    if pages != [] {
      RunsFromProper(pages[0], pages[0], pages[1..]);
      ExpandFormatAll(Runs(pages));
      RunsFromCover(pages[0], pages[0], pages[1..]);
      assert Span(Run(pages[0], pages[0])) == [pages[0]];
      assert pages == [pages[0]] + pages[1..];
    }
  }

  /** An empty list, and only an empty list, gives no items. */
  lemma MergedEmpty(pages: seq<nat>)
    ensures Merged(pages) == [] <==> pages == []
  {
    if pages != [] {
      RunsFromProper(pages[0], pages[0], pages[1..]);
    }
  }

  /** The runs cover rest and one more page each at least, so there are no more runs than pages. */
  lemma {:induction false} RunsFromLength(beg: nat, end: nat, rest: seq<nat>)
    ensures |RunsFrom(beg, end, rest)| <= |rest| + 1
    decreases |rest|
  {
    if rest != [] {
      if rest[0] == end + 1 {
        RunsFromLength(beg, end + 1, rest[1..]);
      } else {
        RunsFromLength(rest[0], rest[0], rest[1..]);
      }
    }
  }

  /** The result is never longer than its input. */
  lemma MergedLength(pages: seq<nat>)
    ensures |Merged(pages)| <= |pages|
  {
    if pages != [] {
      RunsFromLength(pages[0], pages[0], pages[1..]);
    }
  }

  /** Consecutive runs never touch: the run after one ending at hi does not start at hi + 1. */
  lemma {:induction false} RunsFromApart(beg: nat, end: nat, rest: seq<nat>)
    ensures var runs := RunsFrom(beg, end, rest);
      forall i :: 0 <= i < |runs| - 1 ==> runs[i + 1].lo != runs[i].hi + 1
    decreases |rest|
  {
    if rest != [] {
      if rest[0] == end + 1 {
        assert RunsFrom(beg, end, rest) == RunsFrom(beg, end + 1, rest[1..]);
        RunsFromApart(beg, end + 1, rest[1..]);
      } else {
        var tail := RunsFrom(rest[0], rest[0], rest[1..]);
        RunsFromApart(rest[0], rest[0], rest[1..]);
        RunsFromProper(rest[0], rest[0], rest[1..]);
        assert RunsFrom(beg, end, rest) == [Run(beg, end)] + tail;
      }
    }
  }

  /** When the numbers still to come increase and lie above end, every run ends below the next one's start. */
  lemma {:induction false} RunsFromAscending(beg: nat, end: nat, rest: seq<nat>)
    requires StrictlyIncreasing(rest) && (rest != [] ==> end < rest[0])
    ensures var runs := RunsFrom(beg, end, rest);
      forall i :: 0 <= i < |runs| - 1 ==> runs[i].hi < runs[i + 1].lo
    decreases |rest|
  {
    if rest != [] {
      assert StrictlyIncreasing(rest[1..]) && (|rest| > 1 ==> rest[0] < rest[1]);
      if rest[0] == end + 1 {
        assert RunsFrom(beg, end, rest) == RunsFrom(beg, end + 1, rest[1..]);
        RunsFromAscending(beg, end + 1, rest[1..]);
      } else {
        var tail := RunsFrom(rest[0], rest[0], rest[1..]);
        RunsFromAscending(rest[0], rest[0], rest[1..]);
        RunsFromProper(rest[0], rest[0], rest[1..]);
        assert RunsFrom(beg, end, rest) == [Run(beg, end)] + tail;
      }
    }
  }

  /**
    The shape of every item: it parses, as "b-e" exactly when b < e and as
    "b" otherwise; the runs of consecutive items never touch, and for a
    strictly increasing list they are separated by a gap greater than one.
   */
  lemma MergedShape(pages: seq<nat>)
    ensures var items := Merged(pages);
      forall i :: 0 <= i < |items| ==>
        ParseItem(items[i]).Some? && ParseItem(items[i]).value.lo <= ParseItem(items[i]).value.hi &&
        ('-' in items[i] <==> ParseItem(items[i]).value.lo < ParseItem(items[i]).value.hi)
    ensures var items := Merged(pages);
      forall i :: 0 <= i < |items| - 1 ==>
        ParseItem(items[i + 1]).value.lo != ParseItem(items[i]).value.hi + 1
    ensures var items := Merged(pages);
      StrictlyIncreasing(pages) ==>
        forall i :: 0 <= i < |items| - 1 ==>
          ParseItem(items[i]).value.hi + 1 < ParseItem(items[i + 1]).value.lo
  {
    if pages != [] {
      var runs := Runs(pages);
      RunsFromProper(pages[0], pages[0], pages[1..]);
      RunsFromApart(pages[0], pages[0], pages[1..]);
      if StrictlyIncreasing(pages) {
        assert StrictlyIncreasing(pages[1..]) && (|pages| > 1 ==> pages[0] < pages[1]);
        RunsFromAscending(pages[0], pages[0], pages[1..]);
      }
      forall i | 0 <= i < |runs|
        ensures ParseItem(Merged(pages)[i]) == Some(runs[i])
        ensures '-' in Merged(pages)[i] <==> runs[i].lo < runs[i].hi
      {
        ItemFacts(runs[i]);
      }
    }
  }

  /** The example of merge_adjacent's docstring. */
  lemma DocstringExample()
    ensures Merged([1, 4, 5, 6, 8, 9, 12]) == ["1", "4-6", "8-9", "12"]
  {
    var runs := Runs([1, 4, 5, 6, 8, 9, 12]);
    assert runs == [Run(1, 1), Run(4, 6), Run(8, 9), Run(12, 12)] by {
      assert RunsFrom(12, 12, []) == [Run(12, 12)];
      assert RunsFrom(8, 9, [12]) == [Run(8, 9), Run(12, 12)];
      assert RunsFrom(4, 6, [8, 9, 12]) == [Run(4, 6), Run(8, 9), Run(12, 12)];
      assert RunsFrom(1, 1, [4, 5, 6, 8, 9, 12]) == [Run(1, 1)] + RunsFrom(4, 4, [5, 6, 8, 9, 12]);
    }
    assert NatToString(12) == "12" by { assert NatToString(1) == "1"; }
    assert FormatItem(Run(1, 1)) == "1";
    assert FormatItem(Run(4, 6)) == "4-6";
    assert FormatItem(Run(8, 9)) == "8-9";
    assert FormatItem(Run(12, 12)) == "12";
  }
}
