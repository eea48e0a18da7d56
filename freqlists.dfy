/**
  freqlists.py: frequency lists read from "count TAB word" lines, and their
  comparison, which ranks the words found in both lists by how much more
  frequent they are in the first.

  Relative frequencies are exact rationals (Dafny `real`), and the ranking
  score, log10 of the ratio of the two frequencies in the source, is the
  ratio itself: log10 is strictly increasing, so both order words alike.
 */
module FreqLists {
  import opened Results
  import opened PyStr

  /** The entry of a word: {'cnt': cnt, 'freq': cnt / sumcnt}. */
  datatype Item = Item(cnt: nat, freq: real)

  /** What the defaultdict hands out for a word it does not hold: cnt 0 and freq 0. */
  const Absent: Item := Item(0, 0.0)

  /** cnt / sumcnt; only ever computed with sumcnt > 0, 0 otherwise. */
  function Freq(cnt: nat, sumcnt: nat): real
  {
    if sumcnt == 0 then 0.0 else cnt as real / sumcnt as real
  }

  /** fl[word] read without its side effect. */
  function Lookup(dic: map<string, Item>, word: string): Item
  {
    if word in dic then dic[word] else Absent
  }

  /** The entries FreqList.__init__ builds from the counts. */
  function Items(counts: map<string, nat>, sumcnt: nat): (dic: map<string, Item>)
    ensures dic.Keys == counts.Keys
    ensures forall w :: w in counts ==> dic[w] == Item(counts[w], Freq(counts[w], sumcnt))
  {
    map w | w in counts :: Item(counts[w], Freq(counts[w], sumcnt))
  }

  /** Every entry's frequency is its count over the total. */
  ghost predicate ItemsValid(dic: map<string, Item>, sumcnt: nat)
  {
    forall w :: w in dic ==> dic[w].freq == Freq(dic[w].cnt, sumcnt)
  }

  /** dic with the absent entry added for every word of extra it does not hold. */
  function Padded(dic: map<string, Item>, extra: set<string>): (p: map<string, Item>)
    ensures p.Keys == dic.Keys + extra
    ensures forall w :: Lookup(p, w) == Lookup(dic, w)
  {
    map w | w in dic.Keys + extra :: Lookup(dic, w)
  }

  /** A frequency list: the total of the counts and a defaultdict of entries. */
  class FreqList {
    var sumcnt: nat
    var dic: map<string, Item>

    ghost predicate Valid()
      reads this
    {
      ItemsValid(dic, sumcnt)
    }

    /**
      FreqList(dic, sumcnt). The source divides by sumcnt once per word, so
      it raises ZeroDivisionError when the total is 0 and there is a word.
     */
    constructor (counts: map<string, nat>, sumcnt: nat)
      requires sumcnt > 0 || counts == map[]
      ensures Valid() && this.sumcnt == sumcnt && dic == Items(counts, sumcnt)
    {
      this.sumcnt := sumcnt;
      dic := Items(counts, sumcnt);
    }

    /**
      fl[key]: the entry of key, and for a key it does not hold the absent
      entry, which the defaultdict inserts as a side effect.
     */
    method Get(key: string) returns (item: Item)
      requires Valid()
      modifies this
      ensures Valid() && sumcnt == old(sumcnt)
      ensures item == Lookup(old(dic), key)
      ensures dic == Padded(old(dic), {key})
    {
      if key !in dic {
        dic := dic[key := Absent];
      }
      item := dic[key];
    }
  }

  /** The tab-separated fields of a line after strip. */
  function Fields(line: string): seq<string>
  {
    Split(Strip(line), '\t')
  }

  /** A line read has exactly two fields, count and word; every other line is skipped. */
  predicate Accepted(line: string)
  {
    |Fields(line)| == 2
  }

  /** A line of the file gives one record, its (count, word) fields, when it is accepted and none otherwise. */
  function Record(line: string): (r: seq<(string, string)>)
    ensures |r| <= 1 && (|r| == 1 <==> Accepted(line))
  {
    var fields := Fields(line);
    if |fields| == 2 then [(fields[0], fields[1])] else []
  }

  /**
    The line "count TAB word", for tab-free count and word that start and
    end it with non-blank characters, is accepted and gives back exactly
    that count and word.
   */
  lemma RecordRoundTrip(count: string, word: string)
    requires '\t' !in count && '\t' !in word
    requires |count| > 0 && count[0] !in Whitespace
    requires |word| > 0 && word[|word| - 1] !in Whitespace
    ensures Accepted(count + "\t" + word)
    ensures Record(count + "\t" + word) == [(count, word)]
  {
    var line := count + "\t" + word;
    assert line[0] == count[0] && line[|line| - 1] == word[|word| - 1];
    assert Strip(line) == line;
    SplitAfter(count, '\t', word);
    SplitAfter(word, '\t', "");
  }

  /** Conversely, a record is the stripped line cut at its only tab. */
  lemma RecordMeaning(line: string)
    ensures Record(line) != [] ==>
      var (count, word) := Record(line)[0];
      '\t' !in count && '\t' !in word && Strip(line) == count + "\t" + word
  {
    var fields := Fields(line);
    SplitJoinsBack(Strip(line), '\t');
    if |fields| == 2 {
      assert fields[1..] == [fields[1]];
      assert Join(fields, "\t") == fields[0] + "\t" + fields[1];
    }
  }

  /** The (count, word) fields of the accepted lines, in order. */
  function Records(lines: seq<string>): (recs: seq<(string, string)>)
    ensures |recs| <= |lines|
    decreases |lines|
  {
    if lines == [] then []
    else
      Records(lines[..|lines| - 1]) + Record(lines[|lines| - 1])
  }

  /** One step of the loop of read: a record sets its word's count to its own count, which must be a number, and adds it to the total. */
  function AddRecord(acc: (map<string, nat>, nat), rec: (string, string)): Result<(map<string, nat>, nat)>
  {
    match ParseNat(rec.0)
    case Err(e) => Err(e)
    case Ok(freq) => Ok((acc.0[rec.1 := freq], acc.1 + freq))
  }

  /**
    The (dic, cnt) pair the loop of read builds from records: the last count
    of each word and the sum of all counts, or the ValueError of the first
    record whose count is not a number.
   */
  function TallyOf(recs: seq<(string, string)>): Result<(map<string, nat>, nat)>
    decreases |recs|
  {
    if recs == [] then Ok((map[], 0))
    else
      match TallyOf(recs[..|recs| - 1])
      case Err(e) => Err(e)
      case Ok(acc) => AddRecord(acc, recs[|recs| - 1])
  }

  /** The (dic, cnt) pair the loop of read builds from the lines of a file. */
  function Tally(lines: seq<string>): Result<(map<string, nat>, nat)>
  {
    TallyOf(Records(lines))
  }

  /** What read ends with: the tally, then the ZeroDivisionError of FreqList when the total is 0 and a word was read. */
  function ReadSpec(lines: seq<string>): Result<(map<string, nat>, nat)>
  {
    match Tally(lines)
    case Err(e) => Err(e)
    case Ok(acc) => if acc.1 == 0 && acc.0 != map[] then Err(ZeroDivisionError) else Ok(acc)
  }

  /** Reading one more line applies its record, if it has one, to the tally of the lines before. */
  lemma TallyStep(lines: seq<string>, k: nat)
    requires k < |lines|
    ensures Tally(lines[..k + 1]) ==
      match Tally(lines[..k])
      case Err(e) => Err(e)
      case Ok(acc) => if Record(lines[k]) == [] then Ok(acc) else AddRecord(acc, Record(lines[k])[0])
  {
    assert lines[..k + 1][..k] == lines[..k];
    assert lines[..k + 1][k] == lines[k];
    var a := Records(lines[..k]);
    if Record(lines[k]) == [] {
      assert a + [] == a;
    } else {
      assert (a + Record(lines[k]))[..|a|] == a;
    }
  }

  /** Once the tally of a prefix of the lines fails, the tally of all of them fails with the same error. */
  lemma {:induction false} TallyErrorPersists(lines: seq<string>, k: nat)
    requires k <= |lines| && Tally(lines[..k]).Err?
    ensures Tally(lines) == Tally(lines[..k])
    decreases |lines| - k
  {
    if k < |lines| {
      TallyStep(lines, k);
      TallyErrorPersists(lines, k + 1);
    } else {
      assert lines[..k] == lines;
    }
  }

  /** One pass of the loop of read: the line's record, if it has one, applied to dic and cnt. */
  method ReadCountLine(line: string, dic: map<string, nat>, cnt: nat) returns (r: Result<(map<string, nat>, nat)>)
    ensures r == if Record(line) == [] then Ok((dic, cnt)) else AddRecord((dic, cnt), Record(line)[0])
  {
    var rec := Record(line);
    if rec == [] {
      return Ok((dic, cnt));
    }
    r := ReadRecord(rec[0], dic, cnt);
  }

  /** The body of the loop of read for an accepted line: int() of the count, which may raise, then the update of dic and cnt. */
  method ReadRecord(rec: (string, string), dic: map<string, nat>, cnt: nat) returns (r: Result<(map<string, nat>, nat)>)
    ensures r == AddRecord((dic, cnt), rec)
  {
    var freq := ParseNat(rec.0);
    if freq.Err? {
      return Err(freq.error);
    }
    return Ok((dic[rec.1 := freq.value], cnt + freq.value));
  }

  /** read(filename) for the file's lines. */
  method Read(lines: seq<string>) returns (r: Result<FreqList>)
    ensures r.Err? <==> ReadSpec(lines).Err?
    ensures r.Err? ==> r.error == ReadSpec(lines).error
    ensures r.Ok? ==> fresh(r.value) && r.value.Valid()
    ensures r.Ok? ==> r.value.sumcnt == ReadSpec(lines).value.1
    ensures r.Ok? ==> r.value.dic == Items(ReadSpec(lines).value.0, ReadSpec(lines).value.1)
  {
    var dic: map<string, nat> := map[];
    var cnt: nat := 0;
    for k := 0 to |lines|
      invariant Tally(lines[..k]) == Ok((dic, cnt))
    {
      TallyStep(lines, k);
      var next := ReadCountLine(lines[k], dic, cnt);
      if next.Err? {
        TallyErrorPersists(lines, k + 1);
        return Err(next.error);
      }
      dic, cnt := next.value.0, next.value.1;
    }
    assert lines[..|lines|] == lines;
    r := NewFreqList(dic, cnt);
  }

  /** FreqList(dic, sumcnt) as a call that can raise: the ZeroDivisionError of a total of 0 with a word to divide for. */
  method NewFreqList(counts: map<string, nat>, sumcnt: nat) returns (r: Result<FreqList>)
    ensures r.Err? <==> sumcnt == 0 && counts != map[]
    ensures r.Err? ==> r.error == ZeroDivisionError
    ensures r.Ok? ==> fresh(r.value) && r.value.Valid()
    ensures r.Ok? ==> r.value.sumcnt == sumcnt && r.value.dic == Items(counts, sumcnt)
  {
    if sumcnt == 0 && counts != map[] {
      return Err(ZeroDivisionError);
    }
    var fl := new FreqList(counts, sumcnt);
    r := Ok(fl);
  }

  /** Every accepted count is a number. */
  predicate AllCountsParse(recs: seq<(string, string)>)
  {
    forall i :: 0 <= i < |recs| ==> ParseNat(recs[i].0).Ok?
  }

  /** The sum of the counts of the records. */
  function SumCounts(recs: seq<(string, string)>): nat
    requires AllCountsParse(recs)
  {
    if recs == [] then 0
    else
      assert AllCountsParse(recs[..|recs| - 1]);
      SumCounts(recs[..|recs| - 1]) + ParseNat(recs[|recs| - 1].0).value
  }

  /** The count the last record of word carries, if any record carries word. */
  function LastCount(recs: seq<(string, string)>, word: string): Option<nat>
    requires AllCountsParse(recs)
  {
    if recs == [] then None
    else if recs[|recs| - 1].1 == word then Some(ParseNat(recs[|recs| - 1].0).value)
    else
      assert AllCountsParse(recs[..|recs| - 1]);
      LastCount(recs[..|recs| - 1], word)
  }

  /** The tally succeeds exactly when every record has a numeric count. */
  lemma {:induction false} TallySucceeds(recs: seq<(string, string)>)
    ensures TallyOf(recs).Ok? <==> AllCountsParse(recs)
    decreases |recs|
  {
    if recs != [] {
      var init := recs[..|recs| - 1];
      TallySucceeds(init);
      assert forall i :: 0 <= i < |init| ==> init[i] == recs[i];
    }
  }

  /** The total read is the sum of all the counts, those of repeated words included. */
  lemma {:induction false} TallyTotal(recs: seq<(string, string)>)
    requires TallyOf(recs).Ok?
    ensures AllCountsParse(recs)
    ensures TallyOf(recs).value.1 == SumCounts(recs)
    decreases |recs|
  {
    TallySucceeds(recs);
    if recs != [] {
      TallyTotal(recs[..|recs| - 1]);
    }
  }

  /** Each word read keeps the count of its last record, and only the words of records are read. */
  lemma {:induction false} TallyLastCount(recs: seq<(string, string)>, w: string)
    requires TallyOf(recs).Ok?
    ensures AllCountsParse(recs)
    ensures w in TallyOf(recs).value.0 <==> LastCount(recs, w).Some?
    ensures w in TallyOf(recs).value.0 ==> TallyOf(recs).value.0[w] == LastCount(recs, w).value
    decreases |recs|
  {
    TallySucceeds(recs);
    if recs != [] {
      TallyLastCount(recs[..|recs| - 1], w);
    }
  }

  /** The line "c TAB a" for a digit c has the two fields [c] and "a", so it gives the record ([c], "a"), whose count is the digit's value. */
  lemma DigitLine(c: char)
    requires IsDigit(c)
    ensures Record([c, '\t', 'a']) == [([c], "a")]
    ensures ParseNat([c]) == Ok(DigitValue(c))
  {
    var line := [c, '\t', 'a'];
    assert c !in Whitespace && 'a' !in Whitespace;
    assert Strip(line) == line;
    assert line == [c] + ['\t'] + "a";
    SplitAfter([c], '\t', "a");
    SplitAfter("a", '\t', "");
  }

  /**
    Two accepted lines with the same word, one after the other: the word
    keeps the second count, while the total grows by both.
   */
  lemma RepeatedWord(acc: (map<string, nat>, nat), w: string, n1: string, n2: string)
    requires ParseNat(n1).Ok? && ParseNat(n2).Ok?
    ensures AddRecord(acc, (n1, w)).Ok?
    ensures AddRecord(AddRecord(acc, (n1, w)).value, (n2, w)) ==
      Ok((acc.0[w := ParseNat(n2).value], acc.1 + ParseNat(n1).value + ParseNat(n2).value))
  {
    assert acc.0[w := ParseNat(n1).value][w := ParseNat(n2).value] == acc.0[w := ParseNat(n2).value];
  }

  /**
    Two lines whose records name the same word w (the lines "1 TAB a" and
    "2 TAB a", say, by DigitLine): w keeps the second count, while the total
    is the sum of both, 3 and not 2 in the example.
   */
  lemma RepeatedWordLines(x: string, y: string, w: string, n1: string, n2: string)
    requires Record(x) == [(n1, w)] && Record(y) == [(n2, w)]
    requires ParseNat(n1).Ok? && ParseNat(n2).Ok?
    ensures Tally([x, y]) == Ok((map[w := ParseNat(n2).value], ParseNat(n1).value + ParseNat(n2).value))
  {
    assert [x, y][..1] == [x] && [x][..0] == [];
    var recs := [(n1, w), (n2, w)];
    assert Records([x, y]) == recs;
    assert recs[..1] == [(n1, w)] && recs[..1][..0] == [];
    RepeatedWord((map[], 0), w, n1, n2);
    assert TallyOf(recs[..1]) == AddRecord((map[], 0), (n1, w));
    assert map[][w := ParseNat(n2).value] == map[w := ParseNat(n2).value];
  }

  /** A word's comparison data: the frequency ratio in place of its log10, and the counts [cnt1, cnt2]. */
  datatype Scored = Scored(ratio: real, cnt1: nat, cnt2: nat)

  /** The smoothing hook of compare; it leaves frequencies as they are. */
  function Smooth(x: real): real
  {
    x
  }

  /** The entry compare stores for a word, when both frequencies are positive. */
  function ScoreOf(i1: Item, i2: Item): Option<Scored>
  {
    var f1f := i1.freq;
    var f2f := if i2.freq == 0.0 then Smooth(i2.freq) else i2.freq;
    if f1f > 0.0 && f2f > 0.0 then Some(Scored(f1f / f2f, i1.cnt, i2.cnt)) else None
  }

  /** The merged dict once the words of ws have been visited. */
  function MergedOn(d1: map<string, Item>, d2: map<string, Item>, ws: set<string>): map<string, Scored>
  {
    map w | w in ws && ScoreOf(Lookup(d1, w), Lookup(d2, w)).Some? :: ScoreOf(Lookup(d1, w), Lookup(d2, w)).value
  }

  /** The merged dict of compare: every word of either list that is scored. */
  function Scores(d1: map<string, Item>, d2: map<string, Item>): map<string, Scored>
  {
    MergedOn(d1, d2, d1.Keys + d2.Keys)
  }

  /** The sort key (-score, word) of compare: a higher ratio first, ties by code-point order of the words. */
  predicate RanksBefore(a: string, sa: Scored, b: string, sb: Scored)
  {
    sa.ratio > sb.ratio || (sa.ratio == sb.ratio && StrLess(a, b))
  }

  /** Between two different words exactly one ranks before the other. */
  lemma RanksBeforeStrict(a: string, sa: Scored, b: string, sb: Scored)
    requires a != b
    ensures RanksBefore(a, sa, b, sb) <==> !RanksBefore(b, sb, a, sa)
  {
    StrLessTotal(a, b);
    if StrLess(a, b) { StrLessAsymmetric(a, b); } else { StrLessAsymmetric(b, a); }
  }

  lemma RanksBeforeTransitive(a: string, sa: Scored, b: string, sb: Scored, c: string, sc: Scored)
    requires RanksBefore(a, sa, b, sb) && RanksBefore(b, sb, c, sc)
    ensures RanksBefore(a, sa, c, sc)
  {
    if sa.ratio == sb.ratio == sc.ratio { StrLessTransitive(a, b, c); }
  }

  /** w ranks before every other word of m. */
  predicate IsFirst(m: map<string, Scored>, w: string)
  {
    w in m && forall v :: v in m && v != w ==> RanksBefore(w, m[w], v, m[v])
  }

  /** A non-empty merged dict has a word that ranks before all others. */
  lemma {:induction false} FirstExists(m: map<string, Scored>)
    requires |m| > 0
    ensures exists w :: IsFirst(m, w)
    decreases |m|
  {
    var x :| x in m;
    var rest := m - {x};
    if |rest| == 0 {
      assert forall v :: v in m ==> v == x;
      assert IsFirst(m, x);
    } else {
      FirstExists(rest);
      var y :| IsFirst(rest, y);
      assert forall v :: v in rest ==> rest[v] == m[v] && v != x;
      RanksBeforeStrict(x, m[x], y, m[y]);
      if RanksBefore(x, m[x], y, m[y]) {
        forall v | v in m && v != x
          ensures RanksBefore(x, m[x], v, m[v])
        {
          if v != y {
            assert v in rest;
            RanksBeforeTransitive(x, m[x], y, m[y], v, m[v]);
          }
        }
        assert IsFirst(m, x);
      } else {
        assert IsFirst(m, y);
      }
    }
  }

  /** Only one word ranks before all others. */
  lemma FirstUnique(m: map<string, Scored>)
    ensures forall a, b :: IsFirst(m, a) && IsFirst(m, b) ==> a == b
  {
    forall a, b | IsFirst(m, a) && IsFirst(m, b)
      ensures a == b
    {
      if a != b { RanksBeforeStrict(a, m[a], b, m[b]); }
    }
  }

  /** Ranking words of m: each once, each before all later ones. */
  ghost predicate RanksAll(m: map<string, Scored>, r: seq<string>)
  {
    && |r| == |m|
    && (forall w :: w in r <==> w in m)
    && (forall i, j :: 0 <= i < j < |r| ==> r[i] in m && r[j] in m && RanksBefore(r[i], m[r[i]], r[j], m[r[j]]))
  }

  /** The first word followed by a ranking of the others is a ranking of all. */
  lemma RanksCons(m: map<string, Scored>, w: string, rest: seq<string>)
    requires IsFirst(m, w) && RanksAll(m - {w}, rest)
    ensures RanksAll(m, [w] + rest)
  {
    var r := [w] + rest;
    var others := m - {w};
    RemoveOne(m, w);
    forall v
      ensures v in r <==> v in m
    {
      assert v in r <==> v == w || v in rest;
    }
    forall i, j | 0 <= i < j < |r|
      ensures r[i] in m && r[j] in m && RanksBefore(r[i], m[r[i]], r[j], m[r[j]])
    {
      RanksConsPair(m, w, rest, i, j);
    }
  }

  /** One pair of positions of the first word followed by a ranking of the others. */
  lemma RanksConsPair(m: map<string, Scored>, w: string, rest: seq<string>, i: nat, j: nat)
    requires IsFirst(m, w) && RanksAll(m - {w}, rest)
    requires i < j < 1 + |rest|
    ensures var r := [w] + rest;
      r[i] in m && r[j] in m && RanksBefore(r[i], m[r[i]], r[j], m[r[j]])
  {
    var r := [w] + rest;
    var others := m - {w};
    assert r[j] == rest[j - 1] && rest[j - 1] in others;
    assert others[rest[j - 1]] == m[rest[j - 1]];
    if i > 0 {
      assert r[i] == rest[i - 1] && rest[i - 1] in others;
      assert others[rest[i - 1]] == m[rest[i - 1]];
    }
  }

  /** Removing a key of a dict removes one entry and leaves the others as they were. */
  lemma RemoveOne(m: map<string, Scored>, w: string)
    requires w in m
    ensures |m - {w}| == |m| - 1
    ensures forall v :: v in m - {w} <==> v in m && v != w
    ensures forall v :: v in m - {w} ==> (m - {w})[v] == m[v]
  {
    assert (m - {w}).Keys == m.Keys - {w};
  }

  /**
    The merged words sorted by descending score, ties broken by the word
    itself: every merged word once, each ranking before all later ones.
   */
  function Ranked(m: map<string, Scored>): (r: seq<string>)
    ensures RanksAll(m, r)
    decreases |m|
  {
    if |m| == 0 then []
    else
      FirstExists(m);
      FirstUnique(m);
      var w :| IsFirst(m, w);
      var rest := Ranked(m - {w});
      RanksCons(m, w, rest);
      [w] + rest
  }

  /** The ranking compare sorts: the merged words of the two lists. */
  function Ranking(d1: map<string, Item>, d2: map<string, Item>): seq<string>
  {
    Ranked(Scores(d1, d2))
  }

  /** s[:k] with Python's meaning for a negative or too large k. */
  function PyHead<T(==)>(s: seq<T>, k: int): (r: seq<T>)
    ensures |r| <= |s| && r <= s
    ensures forall x :: x in r ==> x in s
  {
    if k >= 0 then (if k <= |s| then s[..k] else s)
    else if -k <= |s| then s[..|s| + k] else []
  }

  /** s[k:] with Python's meaning for a negative or too large k. */
  function PyTail<T(==)>(s: seq<T>, k: int): (r: seq<T>)
    ensures |r| <= |s| && r == s[|s| - |r|..]
    ensures forall x :: x in r ==> x in s
  {
    if k >= 0 then (if k <= |s| then s[k..] else [])
    else if -k <= |s| then s[|s| + k..] else s
  }

  /** beg = s[:head] is the first min(head, n) entries; end = s[-head:] the last min(head, n) when head > 0, and, as -0 == 0, all of s when head == 0. */
  lemma HeadAndTail<T>(s: seq<T>, head: int)
    requires head >= 0
    ensures var n := if head <= |s| then head else |s|;
      PyHead(s, head) == s[..n] && (head > 0 ==> PyTail(s, -head) == s[|s| - n..])
    ensures head == 0 ==> PyTail(s, -head) == s
  {
  }

  /** One side of compare's result: the words alone, or (verbose) the words with their entries. */
  datatype Side = Words(words: seq<string>) | Entries(entries: seq<(string, Scored)>)

  function ToSide(m: map<string, Scored>, ws: seq<string>, verbose: bool): Side
    requires forall w :: w in ws ==> w in m
  {
    if verbose then Entries(seq(|ws|, i requires 0 <= i < |ws| => (ws[i], m[ws[i]]))) else Words(ws)
  }

  /** Padding with words a list already holds adds nothing. */
  lemma PaddedOwnKeys(dic: map<string, Item>, extra: set<string>)
    ensures Padded(dic, dic.Keys + extra) == Padded(dic, extra)
  {
  }

  /** Padding each of two lists with the words of both is padding it with the other's. */
  lemma PaddedBoth(d1: map<string, Item>, d2: map<string, Item>)
    ensures Padded(d1, d1.Keys + d2.Keys) == Padded(d1, d2.Keys)
    ensures Padded(d2, d1.Keys + d2.Keys) == Padded(d2, d1.Keys)
  {
    PaddedOwnKeys(d1, d2.Keys);
    assert d2.Keys + d1.Keys == d1.Keys + d2.Keys;
    PaddedOwnKeys(d2, d1.Keys);
  }

  /** A list holding the words of dic and extra, and agreeing with dic on every lookup, is dic padded with extra. */
  lemma PaddedByLookup(p: map<string, Item>, dic: map<string, Item>, extra: set<string>)
    requires forall w :: w in p <==> w in dic || w in extra
    requires forall w :: Lookup(p, w) == Lookup(dic, w)
    ensures p == Padded(dic, extra)
  {
    forall w | w in p
      ensures p[w] == Padded(dic, extra)[w]
    {
      assert Lookup(p, w) == Lookup(dic, w);
    }
  }

  /** Looking up one more word pads with it. */
  lemma PaddedStep(dic: map<string, Item>, done: set<string>, word: string)
    ensures Padded(Padded(dic, done), {word}) == Padded(dic, done + {word})
  {
  }

  /** Visiting one more word adds it to the merged dict exactly when it is scored. */
  lemma MergedOnStep(d1: map<string, Item>, d2: map<string, Item>, done: set<string>, word: string)
    ensures var score := ScoreOf(Lookup(d1, word), Lookup(d2, word));
      MergedOn(d1, d2, done + {word}) ==
        if score.Some? then MergedOn(d1, d2, done)[word := score.value] else MergedOn(d1, d2, done)
  {
  }

  /** fl1[word] and fl2[word], one after the other; fl1 and fl2 may be the same list. */
  method LookupBoth(fl1: FreqList, fl2: FreqList, word: string) returns (f1: Item, f2: Item)
    requires fl1.Valid() && fl2.Valid()
    modifies fl1, fl2
    ensures fl1.Valid() && fl2.Valid()
    ensures fl1.sumcnt == old(fl1.sumcnt) && fl2.sumcnt == old(fl2.sumcnt)
    ensures f1 == Lookup(old(fl1.dic), word) && f2 == Lookup(old(fl2.dic), word)
    ensures fl1.dic == Padded(old(fl1.dic), {word}) && fl2.dic == Padded(old(fl2.dic), {word})
  {
    ghost var d1, d2 := fl1.dic, fl2.dic;
    f1 := fl1.Get(word);
    if fl1 == fl2 {
      PaddedStep(d1, {word}, word);
      assert {word} + {word} == {word};
    }
    f2 := fl2.Get(word);
  }

  /** The body of the loop of compare: looks word up in both lists, and merges its entry when it is scored. */
  method VisitWord(fl1: FreqList, fl2: FreqList, word: string, merged: map<string, Scored>,
                   ghost d1: map<string, Item>, ghost d2: map<string, Item>, ghost done: set<string>)
    returns (merged': map<string, Scored>)
    requires fl1.Valid() && fl2.Valid()
    requires forall w :: Lookup(fl1.dic, w) == Lookup(d1, w)
    requires forall w :: Lookup(fl2.dic, w) == Lookup(d2, w)
    requires merged == MergedOn(d1, d2, done)
    modifies fl1, fl2
    ensures fl1.Valid() && fl2.Valid()
    ensures fl1.sumcnt == old(fl1.sumcnt) && fl2.sumcnt == old(fl2.sumcnt)
    ensures forall w :: w in fl1.dic <==> w in old(fl1.dic) || w == word
    ensures forall w :: w in fl2.dic <==> w in old(fl2.dic) || w == word
    ensures forall w :: Lookup(fl1.dic, w) == Lookup(d1, w)
    ensures forall w :: Lookup(fl2.dic, w) == Lookup(d2, w)
    ensures merged' == MergedOn(d1, d2, done + {word})
  {
    MergedOnStep(d1, d2, done, word);
    var f1, f2 := LookupBoth(fl1, fl2, word);
    var score := ScoreOf(f1, f2);
    merged' := merged;
    if score.Some? {
      merged' := merged[word := score.value];
    }
  }

  /**
    The loop of compare over the words of both lists: the merged dict of
    their scored words; each list gets the absent entry for the words only
    the other holds.
   */
  method MergeLists(fl1: FreqList, fl2: FreqList) returns (merged: map<string, Scored>)
    requires fl1.Valid() && fl2.Valid()
    modifies fl1, fl2
    ensures fl1.Valid() && fl2.Valid()
    ensures fl1.sumcnt == old(fl1.sumcnt) && fl2.sumcnt == old(fl2.sumcnt)
    ensures fl1.dic == Padded(old(fl1.dic), old(fl2.dic).Keys)
    ensures fl2.dic == Padded(old(fl2.dic), old(fl1.dic).Keys)
    ensures merged == Scores(old(fl1.dic), old(fl2.dic))
  {
    ghost var d1, d2 := fl1.dic, fl2.dic;
    var words := fl1.dic.Keys + fl2.dic.Keys;
    merged := map[];
    var done: set<string> := {};
    while done != words
      invariant done <= words
      invariant fl1.Valid() && fl2.Valid()
      invariant fl1.sumcnt == old(fl1.sumcnt) && fl2.sumcnt == old(fl2.sumcnt)
      invariant forall w :: w in fl1.dic <==> w in d1 || w in done
      invariant forall w :: w in fl2.dic <==> w in d2 || w in done
      invariant forall w :: Lookup(fl1.dic, w) == Lookup(d1, w)
      invariant forall w :: Lookup(fl2.dic, w) == Lookup(d2, w)
      invariant merged == MergedOn(d1, d2, done)
      decreases |words - done|
    {
      var word :| word in words - done;
      merged := VisitWord(fl1, fl2, word, merged, d1, d2, done);
      done := done + {word};
    }
    PaddedBoth(d1, d2);
    PaddedByLookup(fl1.dic, d1, words);
    PaddedByLookup(fl2.dic, d2, words);
  }

  /**
    compare(fl1, fl2, head, verbose): the first and last head words of the
    ranking, with their entries when verbose.
   */
  method Compare(fl1: FreqList, fl2: FreqList, head: int, verbose: bool) returns (beg: Side, end: Side)
    requires fl1.Valid() && fl2.Valid()
    modifies fl1, fl2
    ensures fl1.Valid() && fl2.Valid()
    ensures fl1.sumcnt == old(fl1.sumcnt) && fl2.sumcnt == old(fl2.sumcnt)
    ensures fl1.dic == Padded(old(fl1.dic), old(fl2.dic).Keys)
    ensures fl2.dic == Padded(old(fl2.dic), old(fl1.dic).Keys)
    ensures var m := Scores(old(fl1.dic), old(fl2.dic));
      var ranked := Ranked(m);
      beg == ToSide(m, PyHead(ranked, head), verbose) && end == ToSide(m, PyTail(ranked, -head), verbose)
  {
    var merged := MergeLists(fl1, fl2);
    var ranked := Ranked(merged);
    beg := ToSide(merged, PyHead(ranked, head), verbose);
    end := ToSide(merged, PyTail(ranked, -head), verbose);
  }

  /**
    A word is scored exactly when its frequency is positive in both lists,
    with the counts [cnt1, cnt2] of the two lists; for valid lists those are
    the words with a positive count in both, and the score is the exact
    ratio (cnt1 * sumcnt2) / (cnt2 * sumcnt1).
   */
  lemma ScoredWords(d1: map<string, Item>, s1: nat, d2: map<string, Item>, s2: nat, w: string)
    requires ItemsValid(d1, s1) && ItemsValid(d2, s2)
    ensures w in Scores(d1, d2) <==> Lookup(d1, w).freq > 0.0 && Lookup(d2, w).freq > 0.0
    ensures w in Scores(d1, d2) <==> s1 > 0 && s2 > 0 && Lookup(d1, w).cnt > 0 && Lookup(d2, w).cnt > 0
    ensures w in Scores(d1, d2) ==>
      Scores(d1, d2)[w].cnt1 == Lookup(d1, w).cnt && Scores(d1, d2)[w].cnt2 == Lookup(d2, w).cnt &&
      Scores(d1, d2)[w].ratio == (Lookup(d1, w).cnt * s2) as real / (Lookup(d2, w).cnt * s1) as real
  {
    var c1, c2 := Lookup(d1, w).cnt, Lookup(d2, w).cnt;
    if s1 > 0 && s2 > 0 && c1 > 0 && c2 > 0 {
      RatioOfFrequencies(c1, s1, c2, s2);
    }
  }

  /** The ratio of two relative frequencies is the cross product of counts and totals. */
  lemma RatioOfFrequencies(c1: nat, s1: nat, c2: nat, s2: nat)
    requires c1 > 0 && s1 > 0 && c2 > 0 && s2 > 0
    ensures Freq(c1, s1) / Freq(c2, s2) == (c1 * s2) as real / (c2 * s1) as real
  {
    var a, b, c, d := c1 as real, s1 as real, c2 as real, s2 as real;
    assert (a / b) / (c / d) == (a * d) / (c * b);
    assert (c1 * s2) as real == a * d && (c2 * s1) as real == c * b;
  }

  /**
    The ranking lists the scored words in order of non-increasing ratio, and
    words of equal ratio in increasing code-point order.
   */
  lemma RankingOrder(d1: map<string, Item>, d2: map<string, Item>, i: nat)
    requires i + 1 < |Ranking(d1, d2)|
    ensures var r, m := Ranking(d1, d2), Scores(d1, d2);
      m[r[i]].ratio >= m[r[i + 1]].ratio &&
      (m[r[i]].ratio == m[r[i + 1]].ratio ==> StrLess(r[i], r[i + 1]))
  {
  }
}
