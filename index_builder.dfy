/**
  The main routine of create_index.py: read the book (one "page TAB text"
  line per paragraph), choose the index words (the words most over-represented
  in the book's frequency list against a general one, minus an exclude list,
  plus an include list), sort them by the Hungarian collation, and print for
  each word that occurs in the book a "__word__ pages  " line, preceded by a
  "## letter" header whenever the word opens a new letter of the alphabet.
 */
module IndexBuilder {
  import opened Results
  import opened PyStr
  import opened Collation
  import opened PageRuns
  import opened Alphabet
  import FreqLists

  /**
    The book: the set of words of every page, and its page numbers in the
    order the dict met them first, the order in which iterating it yields them.
   */
  datatype Book = Book(order: seq<nat>, pages: map<nat, set<string>>)

  /** What a dict is: every key once in the order, and the order holding exactly the keys. */
  ghost predicate BookValid(b: Book)
  {
    && (forall i, j :: 0 <= i < j < |b.order| ==> b.order[i] != b.order[j])
    && (forall p :: p in b.order <==> p in b.pages)
  }

  /** One line of the book file, parsed: int() of the text before the first tab, and the words after it. */
  datatype PageLine = PageLine(page: Result<nat>, words: set<string>)

  /** The set of the words of a list. */
  function WordsOf(words: seq<string>): set<string>
  {
    set w | w in words
  }

  /** The page number of a book line, and its text after the first tab split on single spaces. */
  function ParseLine(line: string): PageLine
  {
    var parts := Partition(Strip(line), '\t');
    PageLine(ParseNat(parts.0), WordsOf(Split(parts.2, ' ')))
  }

  /** The lines of the book file, parsed one by one. */
  function ParseLines(lines: seq<string>): (r: seq<PageLine>)
    ensures |r| == |lines|
    ensures forall i :: 0 <= i < |lines| ==> r[i] == ParseLine(lines[i])
  {
    seq(|lines|, i requires 0 <= i < |lines| => ParseLine(lines[i]))
  }

  /** book[p].update(words) on the defaultdict: a page met for the first time joins the order with an empty set. */
  function AddPage(b: Book, p: nat, words: set<string>): Book
  {
    if p in b.pages then Book(b.order, b.pages[p := b.pages[p] + words])
    else Book(b.order + [p], b.pages[p := words])
  }

  /** The book built from parsed lines, or the ValueError of the first line whose page number is not a number. */
  function BookFrom(recs: seq<PageLine>): Result<Book>
    decreases |recs|
  {
    if recs == [] then Ok(Book([], map[]))
    else
      match BookFrom(recs[..|recs| - 1])
      case Err(e) => Err(e)
      case Ok(b) =>
        var last := recs[|recs| - 1];
        match last.page
        case Err(e) => Err(e)
        case Ok(p) => Ok(AddPage(b, p, last.words))
  }

  /** The book built from the lines of the book file. */
  function BookOf(lines: seq<string>): Result<Book>
  {
    BookFrom(ParseLines(lines))
  }

  /** Once the book of a prefix fails, the book of the whole fails with the same error. */
  lemma {:induction false} BookErrorPersists(recs: seq<PageLine>, k: nat)
    requires k <= |recs| && BookFrom(recs[..k]).Err?
    ensures BookFrom(recs) == BookFrom(recs[..k])
    decreases |recs| - k
  {
    if k < |recs| {
      assert recs[..k + 1][..k] == recs[..k];
      BookErrorPersists(recs, k + 1);
    } else {
      assert recs[..k] == recs;
    }
  }

  /** One pass of the reading loop: the page of one line gets its words. */
  method ReadPageLine(line: string, order: seq<nat>, pages: map<nat, set<string>>)
    returns (r: Result<(seq<nat>, map<nat, set<string>>)>)
    ensures ParseLine(line).page.Err? ==> r == Err(ParseLine(line).page.error)
    ensures ParseLine(line).page.Ok? ==>
      r.Ok? && Book(r.value.0, r.value.1) == AddPage(Book(order, pages), ParseLine(line).page.value, ParseLine(line).words)
  {
    var rec := ParseLine(line);
    if rec.page.Err? {
      return Err(rec.page.error);
    }
    var p := rec.page.value;
    var newOrder, newPages := order, pages;
    if p !in newPages {
      newOrder := newOrder + [p];
      newPages := newPages[p := {}];
      assert {} + rec.words == rec.words;
    }
    newPages := newPages[p := newPages[p] + rec.words];
    assert p !in pages ==> newPages == pages[p := rec.words];
    return Ok((newOrder, newPages));
  }

  /** The loop that reads the book file into the page -> word-set dict. */
  method ReadBook(lines: seq<string>) returns (r: Result<Book>)
    ensures r == BookOf(lines)
  {
    ghost var recs := ParseLines(lines);
    var order: seq<nat> := [];
    var pages: map<nat, set<string>> := map[];
    for k := 0 to |lines|
      invariant BookFrom(recs[..k]) == Ok(Book(order, pages))
    {
      assert recs[k] == ParseLine(lines[k]);
      BookFromStep(recs, k);
      var next := ReadPageLine(lines[k], order, pages);
      if next.Err? {
        BookErrorPersists(recs, k + 1);
        return Err(next.error);
      }
      order, pages := next.value.0, next.value.1;
    }
    assert recs[..|lines|] == recs;
    r := Ok(Book(order, pages));
  }

  /** Building the book from one more line: its page number must parse, and its words go to that page. */
  lemma BookFromStep(recs: seq<PageLine>, k: nat)
    requires k < |recs| && BookFrom(recs[..k]).Ok?
    ensures recs[k].page.Err? ==> BookFrom(recs[..k + 1]) == Err(recs[k].page.error)
    ensures recs[k].page.Ok? ==>
      BookFrom(recs[..k + 1]) == Ok(AddPage(BookFrom(recs[..k]).value, recs[k].page.value, recs[k].words))
  {
    assert recs[..k + 1][..k] == recs[..k];
    assert recs[..k + 1][k] == recs[k];
  }

  /** The book can be built exactly when every line starts with a page number; otherwise the error is a ValueError. */
  lemma {:induction false} BookSucceeds(recs: seq<PageLine>)
    requires forall i :: 0 <= i < |recs| && recs[i].page.Err? ==> recs[i].page.error == ValueError
    ensures BookFrom(recs).Ok? <==> forall i :: 0 <= i < |recs| ==> recs[i].page.Ok?
    ensures BookFrom(recs).Err? ==> BookFrom(recs).error == ValueError
    decreases |recs|
  {
    if recs != [] {
      var init := recs[..|recs| - 1];
      BookSucceeds(init);
      assert forall i :: 0 <= i < |init| ==> init[i] == recs[i];
    }
  }

  /** The book of the book file can be built exactly when every line starts with a page number; otherwise the error is a ValueError. */
  lemma BookOfSucceeds(lines: seq<string>)
    ensures BookOf(lines).Ok? <==> forall i :: 0 <= i < |lines| ==> ParseLine(lines[i]).page.Ok?
    ensures BookOf(lines).Err? ==> BookOf(lines).error == ValueError
  {
    BookSucceeds(ParseLines(lines));
  }

  /** A built book is a dict: each page once in the order, the order holding exactly its keys. */
  lemma {:induction false} BookIsDict(recs: seq<PageLine>)
    requires BookFrom(recs).Ok?
    ensures BookValid(BookFrom(recs).value)
    decreases |recs|
  {
    if recs != [] {
      var init := recs[..|recs| - 1];
      var last := recs[|recs| - 1];
      BookIsDict(init);
      var b := BookFrom(init).value;
      if last.page.value !in b.pages {
        BookValidAppend(b, last.page.value, last.words);
      }
    }
  }

  /** A page is a key of the built book exactly when some line carries it. */
  lemma {:induction false} BookPages(recs: seq<PageLine>)
    requires BookFrom(recs).Ok?
    ensures forall p :: p in BookFrom(recs).value.pages <==>
      exists i :: 0 <= i < |recs| && recs[i].page == Ok(p)
    decreases |recs|
  {
    if recs != [] {
      var init := recs[..|recs| - 1];
      BookPages(init);
      assert forall i :: 0 <= i < |init| ==> init[i] == recs[i];
    }
  }

  /** A word is on a page of the built book exactly when some line of that page has it. */
  lemma {:induction false} BookWords(recs: seq<PageLine>)
    requires BookFrom(recs).Ok?
    ensures forall p, w :: p in BookFrom(recs).value.pages ==>
      (w in BookFrom(recs).value.pages[p] <==>
       exists i :: 0 <= i < |recs| && recs[i].page == Ok(p) && w in recs[i].words)
    decreases |recs|
  {
    if recs != [] {
      var init := recs[..|recs| - 1];
      BookWords(init);
      BookPages(init);
      assert forall i :: 0 <= i < |init| ==> init[i] == recs[i];
    }
  }

  /** Adding a new page keeps the order and the keys in step. */
  lemma BookValidAppend(b: Book, p: nat, words: set<string>)
    requires BookValid(b) && p !in b.pages
    ensures BookValid(AddPage(b, p, words))
  {
    var order := b.order + [p];
    forall i, j | 0 <= i < j < |order|
      ensures order[i] != order[j]
    {
      if j == |b.order| { assert order[i] in b.order; }
    }
  }

  /** The index of the first line of page p, or |recs| when no line carries p. */
  function FirstLineOf(recs: seq<PageLine>, p: nat): (r: nat)
    ensures r <= |recs|
    ensures r == |recs| <==> forall k :: 0 <= k < |recs| ==> recs[k].page != Ok(p)
    ensures r < |recs| ==> recs[r].page == Ok(p)
    ensures forall k :: 0 <= k < r ==> recs[k].page != Ok(p)
    decreases |recs|
  {
    if recs == [] then 0
    else
      var init := recs[..|recs| - 1];
      var r := FirstLineOf(init, p);
      if r < |init| then r
      else if recs[|recs| - 1].page == Ok(p) then |recs| - 1
      else |recs|
  }

  /** The book yields its pages in the order of their first lines. */
  lemma {:induction false} BookOrder(recs: seq<PageLine>)
    requires BookFrom(recs).Ok?
    ensures var order := BookFrom(recs).value.order;
      forall i, j :: 0 <= i < j < |order| ==> FirstLineOf(recs, order[i]) < FirstLineOf(recs, order[j]) < |recs|
    decreases |recs|
  {
    if recs != [] {
      var init := recs[..|recs| - 1];
      BookOrder(init);
      FirstLinesKept(recs);
      var b := BookFrom(init).value;
      var order := BookFrom(recs).value.order;
      if recs[|recs| - 1].page.value !in b.pages {
        forall i, j | 0 <= i < j < |order|
          ensures FirstLineOf(recs, order[i]) < FirstLineOf(recs, order[j]) < |recs|
        {
          assert order[i] == b.order[i];
          if j < |b.order| { assert order[j] == b.order[j]; }
        }
      }
    }
  }

  /**
    One more line leaves the first lines of the pages read before where they
    were, and a page it brings first has its first line there.
   */
  lemma FirstLinesKept(recs: seq<PageLine>)
    requires recs != [] && BookFrom(recs).Ok?
    ensures BookFrom(recs[..|recs| - 1]).Ok?
    ensures var init := recs[..|recs| - 1];
      var b := BookFrom(init).value;
      && (forall q :: q in b.order ==> FirstLineOf(recs, q) == FirstLineOf(init, q) < |init|)
      && (recs[|recs| - 1].page.value !in b.pages ==> FirstLineOf(recs, recs[|recs| - 1].page.value) == |init|)
  {
    var init := recs[..|recs| - 1];
    BookPages(init);
    BookIsDict(init);
    var b := BookFrom(init).value;
    forall q | q in b.order
      ensures FirstLineOf(recs, q) == FirstLineOf(init, q) < |init|
    {
      var i :| 0 <= i < |init| && init[i].page == Ok(q);
      assert FirstLineOf(init, q) <= i;
    }
  }

  /** The words of a word-list file, each line stripped; no file gives the empty set. */
  function WordList(lines: Option<seq<string>>): set<string>
  {
    match lines
    case None => {}
    case Some(ls) => set i | 0 <= i < |ls| :: Strip(ls[i])
  }

  /** The index words: the top words without the excluded ones, and then every included word added. */
  function Selection(top: seq<string>, excluded: set<string>, included: set<string>): set<string>
  {
    (set w | w in top) - excluded + included
  }

  /** Every include word is selected; an exclude word only when it is an include word too; any other top word is selected. */
  lemma SelectionRule(top: seq<string>, excluded: set<string>, included: set<string>, w: string)
    ensures w in included ==> w in Selection(top, excluded, included)
    ensures w in excluded && w !in included ==> w !in Selection(top, excluded, included)
    ensures w in Selection(top, excluded, included) <==> (w in top && w !in excluded) || w in included
  {
  }

  /** The pages of order whose word set has word, in the order's order. */
  function PagesIn(order: seq<nat>, pages: map<nat, set<string>>, word: string): seq<nat>
    decreases |order|
  {
    if order == [] then []
    else
      var p := order[|order| - 1];
      PagesIn(order[..|order| - 1], pages, word) + (if p in pages && word in pages[p] then [p] else [])
  }

  /** One more page of the order is kept exactly when its word set has the word. */
  lemma PagesInStep(order: seq<nat>, pages: map<nat, set<string>>, word: string, j: nat)
    requires j < |order|
    ensures PagesIn(order[..j + 1], pages, word) ==
      PagesIn(order[..j], pages, word) + (if order[j] in pages && word in pages[order[j]] then [order[j]] else [])
  {
    assert order[..j + 1][..j] == order[..j];
    assert order[..j + 1][j] == order[j];
  }

  /** pagenums for word: the pages of the book that have the word. */
  function PagesOf(book: Book, word: string): seq<nat>
  {
    PagesIn(book.order, book.pages, word)
  }

  /** The pages found for a word are its pages: each once, and exactly those that have the word. */
  lemma {:induction false} PagesInMeaning(order: seq<nat>, pages: map<nat, set<string>>, word: string)
    requires forall i, j :: 0 <= i < j < |order| ==> order[i] != order[j]
    ensures var ps := PagesIn(order, pages, word);
      (forall p :: p in ps <==> p in order && p in pages && word in pages[p]) &&
      (forall i, j :: 0 <= i < j < |ps| ==> ps[i] != ps[j])
    decreases |order|
  {
    if order != [] {
      var init := order[..|order| - 1];
      var p := order[|order| - 1];
      PagesInMeaning(init, pages, word);
      assert order == init + [p];
      assert p !in init;
    }
  }

  /** The position of page p in the order, or |order| when p is not in it. */
  function IndexIn(order: seq<nat>, p: nat): (r: nat)
    ensures r <= |order|
    ensures r < |order| ==> order[r] == p
    ensures r == |order| <==> p !in order
    decreases |order|
  {
    if order == [] then 0
    else
      var r := IndexIn(order[..|order| - 1], p);
      if r < |order| - 1 then r
      else if order[|order| - 1] == p then |order| - 1
      else |order|
  }

  /** The pages found for a word come in the order of the book's order. */
  lemma {:induction false} PagesInOrder(order: seq<nat>, pages: map<nat, set<string>>, word: string)
    requires forall i, j :: 0 <= i < j < |order| ==> order[i] != order[j]
    ensures var ps := PagesIn(order, pages, word);
      forall i, j :: 0 <= i < j < |ps| ==> IndexIn(order, ps[i]) < IndexIn(order, ps[j]) < |order|
    decreases |order|
  {
    if order != [] {
      var init := order[..|order| - 1];
      var p := order[|order| - 1];
      PagesInOrder(init, pages, word);
      PagesInMeaning(init, pages, word);
      var prev := PagesIn(init, pages, word);
      var ps := PagesIn(order, pages, word);
      assert order == init + [p];
      assert p !in init;
      assert IndexIn(order, p) == |init|;
      forall q | q in init
        ensures IndexIn(order, q) == IndexIn(init, q) < |init|
      {
      }
      forall i, j | 0 <= i < j < |ps|
        ensures IndexIn(order, ps[i]) < IndexIn(order, ps[j]) < |order|
      {
        assert ps[i] == prev[i] && ps[i] in init;
        if j < |prev| {
          assert ps[j] == prev[j] && ps[j] in init;
        } else {
          assert ps[j] == p;
        }
      }
    }
  }

  /**
    For a dict, the pages found for a word are exactly the pages whose word
    set has it, each once, in the order the dict yields its pages.
   */
  lemma PagesOfMeaning(book: Book, word: string)
    requires BookValid(book)
    ensures forall p :: p in PagesOf(book, word) <==> p in book.pages && word in book.pages[p]
    ensures forall i, j :: 0 <= i < j < |PagesOf(book, word)| ==> PagesOf(book, word)[i] != PagesOf(book, word)[j]
    ensures forall i, j :: 0 <= i < j < |PagesOf(book, word)| ==>
      IndexIn(book.order, PagesOf(book, word)[i]) < IndexIn(book.order, PagesOf(book, word)[j]) < |book.order|
  {
    PagesInMeaning(book.order, book.pages, word);
    PagesInOrder(book.order, book.pages, word);
    var ps := PagesOf(book, word);
    assert ps == PagesIn(book.order, book.pages, word);
    forall i, j | 0 <= i < j < |ps|
      ensures IndexIn(book.order, ps[i]) < IndexIn(book.order, ps[j]) < |book.order|
    {
    }
  }

  /** A line of the index: a section header, or a word with the pages it occurs on. */
  datatype IndexLine = Header(letter: string) | Entry(word: string, pages: seq<nat>)

  /** The section cursor after lines, starting from start: the letter of the last header. */
  function CursorFrom(start: string, lines: seq<IndexLine>): string
    decreases |lines|
  {
    if lines == [] then start
    else if lines[|lines| - 1].Header? then lines[|lines| - 1].letter
    else CursorFrom(start, lines[..|lines| - 1])
  }

  /** The sentinel the cursor starts from, before every letter. */
  const Sentinel: string := "0"

  /** The cursor after lines. */
  function Cursor(lines: seq<IndexLine>): string
  {
    CursorFrom(Sentinel, lines)
  }

  /** One word of the sorted list: the lines it emits and the new cursor. */
  function Step(cmp: Comparator, book: Book, cursor: string, word: string): (seq<IndexLine>, string)
  {
    var pagenums := PagesOf(book, word);
    if |pagenums| == 0 then ([], cursor)
    else
      var newInitial := NextAlphabetLetter(cmp, cursor, word);
      if newInitial != cursor then ([Header(newInitial), Entry(word, pagenums)], newInitial)
      else ([Entry(word, pagenums)], cursor)
  }

  /** The lines the loop over the sorted words emits, and the cursor it ends with. */
  function Index(cmp: Comparator, book: Book, words: seq<string>): (seq<IndexLine>, string)
    decreases |words|
  {
    if words == [] then ([], Sentinel)
    else
      var prev := Index(cmp, book, words[..|words| - 1]);
      var step := Step(cmp, book, prev.1, words[|words| - 1]);
      (prev.0 + step.0, step.1)
  }

  /** The lines of one more word follow the lines of the words before it. */
  lemma IndexSnoc(cmp: Comparator, book: Book, words: seq<string>, w: string)
    ensures var prev := Index(cmp, book, words); var step := Step(cmp, book, prev.1, w);
      Index(cmp, book, words + [w]) == (prev.0 + step.0, step.1)
  {
    assert (words + [w])[..|words|] == words;
  }

  /** The printed form of an index line. */
  function Render(line: IndexLine): string
  {
    match line
    case Header(letter) => "## " + DictInitial(letter)
    case Entry(word, pages) => "__" + word + "__ " + Join(Merged(pages), ", ") + "  "
  }

  function RenderAll(lines: seq<IndexLine>): (out: seq<string>)
    ensures |out| == |lines|
    ensures forall i :: 0 <= i < |lines| ==> out[i] == Render(lines[i])
  {
    seq(|lines|, i requires 0 <= i < |lines| => Render(lines[i]))
  }

  /** The inner loop: the pages, in the book's order, that have the word. */
  method FindPages(book: Book, word: string) returns (pagenums: seq<nat>)
    requires BookValid(book)
    ensures pagenums == PagesOf(book, word)
  {
    pagenums := [];
    for j := 0 to |book.order|
      invariant pagenums == PagesIn(book.order[..j], book.pages, word)
    {
      PagesInStep(book.order, book.pages, word, j);
      var pagenum := book.order[j];
      assert pagenum in book.pages;
      if word in book.pages[pagenum] {
        pagenums := pagenums + [pagenum];
      }
    }
    assert book.order[..|book.order|] == book.order;
  }

  /** One pass of the outer loop: the lines printed for one word, and the cursor after it. */
  method EmitWord(cmp: Comparator, book: Book, initialLetter: string, word: string)
    returns (printed: seq<string>, newInitialLetter: string)
    requires BookValid(book)
    ensures printed == RenderAll(Step(cmp, book, initialLetter, word).0)
    ensures newInitialLetter == Step(cmp, book, initialLetter, word).1
  {
    printed := [];
    newInitialLetter := initialLetter;
    var pagenums := FindPages(book, word);
    ghost var lines: seq<IndexLine> := [];
    if |pagenums| > 0 {
      newInitialLetter := NextAlphabetLetter(cmp, initialLetter, word);
      if newInitialLetter != initialLetter {
        printed := ["## " + DictInitial(newInitialLetter)];
        lines := [Header(newInitialLetter)];
        RenderOne(Header(newInitialLetter));
      }
      var intlist := new PageList(pagenums);
      var merged := MergeAdjacent(intlist);
      var entry := "__" + word + "__ " + Join(merged, ", ") + "  ";
      assert entry == Render(Entry(word, pagenums));
      RenderOne(Entry(word, pagenums));
      RenderAppend(lines, [Entry(word, pagenums)]);
      printed := printed + [entry];
      lines := lines + [Entry(word, pagenums)];
    }
    StepLines(cmp, book, initialLetter, word, pagenums, newInitialLetter, lines);
  }

  /** A single line prints as itself. */
  lemma RenderOne(line: IndexLine)
    ensures RenderAll([line]) == [Render(line)]
  {
  }

  /** Step in the terms the loop computes it in: the pages found and the letter the word opens. */
  lemma StepLines(cmp: Comparator, book: Book, cursor: string, word: string, ps: seq<nat>, next: string, lines: seq<IndexLine>)
    requires ps == PagesOf(book, word)
    requires |ps| == 0 ==> next == cursor && lines == []
    requires |ps| > 0 ==> next == NextAlphabetLetter(cmp, cursor, word)
    requires |ps| > 0 && next != cursor ==> lines == [Header(next), Entry(word, ps)]
    requires |ps| > 0 && next == cursor ==> lines == [Entry(word, ps)]
    ensures Step(cmp, book, cursor, word) == (lines, next)
  {
  }

  /** Printing concatenated lines prints each part in turn. */
  lemma RenderAppend(a: seq<IndexLine>, b: seq<IndexLine>)
    ensures RenderAll(a + b) == RenderAll(a) + RenderAll(b)
  {
  }

  /** The nested loops that print the index for the sorted words. */
  method EmitIndex(cmp: Comparator, book: Book, sortedWords: seq<string>) returns (out: seq<string>)
    requires BookValid(book)
    ensures out == RenderAll(Index(cmp, book, sortedWords).0)
  {
    var initialLetter := Sentinel;
    out := [];
    ghost var lines: seq<IndexLine> := [];
    for k := 0 to |sortedWords|
      invariant Index(cmp, book, sortedWords[..k]) == (lines, initialLetter)
      invariant out == RenderAll(lines)
    {
      assert sortedWords[..k + 1][..k] == sortedWords[..k];
      ghost var step := Step(cmp, book, initialLetter, sortedWords[k]);
      var printed, next := EmitWord(cmp, book, initialLetter, sortedWords[k]);
      RenderAppend(lines, step.0);
      out := out + printed;
      lines := lines + step.0;
      initialLetter := next;
    }
    assert sortedWords[..|sortedWords|] == sortedWords;
  }

  /** The cursor runs on through concatenated lines. */
  lemma {:induction false} CursorAppend(start: string, a: seq<IndexLine>, b: seq<IndexLine>)
    ensures CursorFrom(start, a + b) == CursorFrom(CursorFrom(start, a), b)
    decreases |b|
  {
    if b == [] {
      assert a + b == a;
    } else {
      assert (a + b)[..|a + b| - 1] == a + b[..|b| - 1];
      CursorAppend(start, a, b[..|b| - 1]);
    }
  }

  /** The cursor the loop carries is the letter of the last header it printed, or the sentinel. */
  lemma {:induction false} IndexCursor(cmp: Comparator, book: Book, words: seq<string>)
    ensures Index(cmp, book, words).1 == Cursor(Index(cmp, book, words).0)
    decreases |words|
  {
    if words != [] {
      var prev := Index(cmp, book, words[..|words| - 1]);
      IndexCursor(cmp, book, words[..|words| - 1]);
      var step := Step(cmp, book, prev.1, words[|words| - 1]);
      CursorAppend(Sentinel, prev.0, step.0);
      assert [Header("")][..0] == [];
    }
  }

  /**
    The header rule: a header is always followed by an entry, so no header
    ends the lines; a header right before the entry of a word is the letter
    that word opens after the cursor, and differs from the cursor; an entry
    without a header before it is for a word that opens no new letter.
   */
  ghost predicate HeaderRule(cmp: Comparator, lines: seq<IndexLine>)
  {
    HeadersOpen(cmp, lines) && EntriesStay(cmp, lines)
  }

  /** Every header is followed by an entry, whose word opens the header's letter, a letter other than the cursor's. */
  ghost predicate HeadersOpen(cmp: Comparator, lines: seq<IndexLine>)
  {
    forall i {:trigger lines[i]} :: 0 <= i < |lines| && lines[i].Header? ==>
      i + 1 < |lines| && lines[i + 1].Entry? &&
      lines[i].letter == NextAlphabetLetter(cmp, Cursor(lines[..i]), lines[i + 1].word) &&
      lines[i].letter != Cursor(lines[..i])
  }

  /** Every entry without a header right before it is for a word that leaves the cursor's letter open. */
  ghost predicate EntriesStay(cmp: Comparator, lines: seq<IndexLine>)
  {
    forall i {:trigger lines[i]} :: 0 <= i < |lines| && lines[i].Entry? && (i == 0 || !lines[i - 1].Header?) ==>
      NextAlphabetLetter(cmp, Cursor(lines[..i]), lines[i].word) == Cursor(lines[..i])
  }

  /** The index the loop prints follows the header rule. */
  lemma {:induction false} IndexHeaders(cmp: Comparator, book: Book, words: seq<string>)
    ensures HeaderRule(cmp, Index(cmp, book, words).0)
    decreases |words|
  {
    if words != [] {
      var prev := Index(cmp, book, words[..|words| - 1]);
      IndexHeaders(cmp, book, words[..|words| - 1]);
      IndexCursor(cmp, book, words[..|words| - 1]);
      var step := Step(cmp, book, prev.1, words[|words| - 1]);
      HeadersOpenAppend(cmp, prev.0, step.0, words[|words| - 1], PagesOf(book, words[|words| - 1]));
      EntriesStayAppend(cmp, prev.0, step.0, words[|words| - 1], PagesOf(book, words[|words| - 1]));
    }
  }

  /** Appending the lines of one step keeps every header followed by the entry that opens it. */
  lemma HeadersOpenAppend(cmp: Comparator, a: seq<IndexLine>, s: seq<IndexLine>, w: string, ps: seq<nat>)
    requires HeadersOpen(cmp, a)
    requires var c := Cursor(a); var nl := NextAlphabetLetter(cmp, c, w);
      s == [] || (nl == c && s == [Entry(w, ps)]) || (nl != c && s == [Header(nl), Entry(w, ps)])
    ensures HeadersOpen(cmp, a + s)
  {
    var l := a + s;
    assert l[..|a|] == a;
    assert |s| == 2 ==> l[|a|] == s[0] && l[|a| + 1] == s[1];
    forall i | 0 <= i < |l| && l[i].Header?
      ensures i + 1 < |l| && l[i + 1].Entry?
      ensures l[i].letter == NextAlphabetLetter(cmp, Cursor(l[..i]), l[i + 1].word)
      ensures l[i].letter != Cursor(l[..i])
    {
      if i < |a| {
        assert l[..i] == a[..i] && l[i] == a[i];
        assert l[i + 1] == a[i + 1];
      }
    }
  }

  /** Appending the lines of one step keeps every entry without a header for a word that opens nothing. */
  lemma EntriesStayAppend(cmp: Comparator, a: seq<IndexLine>, s: seq<IndexLine>, w: string, ps: seq<nat>)
    requires HeadersOpen(cmp, a) && EntriesStay(cmp, a)
    requires var c := Cursor(a); var nl := NextAlphabetLetter(cmp, c, w);
      s == [] || (nl == c && s == [Entry(w, ps)]) || (nl != c && s == [Header(nl), Entry(w, ps)])
    ensures EntriesStay(cmp, a + s)
  {
    var l := a + s;
    assert l[..|a|] == a;
    assert |s| == 2 ==> l[|a|] == s[0] && l[|a| + 1] == s[1];
    forall i | 0 <= i < |l| && l[i].Entry? && (i == 0 || !l[i - 1].Header?)
      ensures NextAlphabetLetter(cmp, Cursor(l[..i]), l[i].word) == Cursor(l[..i])
    {
      if i < |a| {
        assert l[..i] == a[..i] && l[i] == a[i];
        if i > 0 { assert l[i - 1] == a[i - 1]; }
      } else if i == |a| {
        assert l[i] == s[0];
        assert s == [Entry(w, ps)];
        assert l[..i] == a;
      }
    }
  }

  /** The entries among index lines, in order. */
  function EntriesOf(lines: seq<IndexLine>): seq<IndexLine>
    decreases |lines|
  {
    if lines == [] then []
    else EntriesOf(lines[..|lines| - 1]) + (if lines[|lines| - 1].Entry? then [lines[|lines| - 1]] else [])
  }

  /** The entries the words should get: one per word that occurs on some page, with its pages, in the words' order. */
  function ExpectedEntries(book: Book, words: seq<string>): seq<IndexLine>
    decreases |words|
  {
    if words == [] then []
    else
      var w := words[|words| - 1];
      ExpectedEntries(book, words[..|words| - 1]) + (if PagesOf(book, w) != [] then [Entry(w, PagesOf(book, w))] else [])
  }

  /** The entries are concatenated along with the lines. */
  lemma {:induction false} EntriesAppend(a: seq<IndexLine>, b: seq<IndexLine>)
    ensures EntriesOf(a + b) == EntriesOf(a) + EntriesOf(b)
    decreases |b|
  {
    if b != [] {
      assert (a + b)[..|a + b| - 1] == a + b[..|b| - 1];
      EntriesAppend(a, b[..|b| - 1]);
    } else {
      assert a + b == a;
    }
  }

  /**
    Every word that occurs in the book gets exactly one entry, with its
    pages, in the order of the sorted words; a word on no page gets none.
   */
  lemma {:induction false} IndexEntries(cmp: Comparator, book: Book, words: seq<string>)
    ensures EntriesOf(Index(cmp, book, words).0) == ExpectedEntries(book, words)
    decreases |words|
  {
    if words != [] {
      var prev := Index(cmp, book, words[..|words| - 1]);
      IndexEntries(cmp, book, words[..|words| - 1]);
      var step := Step(cmp, book, prev.1, words[|words| - 1]);
      EntriesAppend(prev.0, step.0);
      StepEntries(cmp, book, prev.1, words[|words| - 1]);
    }
  }

  /** One word contributes its entry when it is on some page, and nothing otherwise. */
  lemma StepEntries(cmp: Comparator, book: Book, cursor: string, word: string)
    ensures EntriesOf(Step(cmp, book, cursor, word).0) ==
      if PagesOf(book, word) != [] then [Entry(word, PagesOf(book, word))] else []
  {
    var ps := PagesOf(book, word);
    var lines := Step(cmp, book, cursor, word).0;
    if ps != [] {
      var entry := Entry(word, ps);
      assert [entry][..0] == [];
      if lines != [entry] {
        var h := Header(NextAlphabetLetter(cmp, cursor, word));
        assert lines == [h, entry] && [h, entry][..1] == [h] && [h][..0] == [];
        assert EntriesOf([h]) == [];
        assert EntriesOf([h, entry]) == [entry];
      }
    }
  }

  /** The words that occur on some page of the book. */
  function WithPages(book: Book, words: seq<string>): seq<string>
    decreases |words|
  {
    if words == [] then []
    else
      var w := words[|words| - 1];
      WithPages(book, words[..|words| - 1]) + (if PagesOf(book, w) != [] then [w] else [])
  }

  /** Dropping the words that are on no page changes neither the lines nor the cursor. */
  lemma {:induction false} PagelessWordsIgnored(cmp: Comparator, book: Book, words: seq<string>)
    ensures Index(cmp, book, WithPages(book, words)) == Index(cmp, book, words)
    decreases |words|
  {
    if words != [] {
      var init := words[..|words| - 1];
      var w := words[|words| - 1];
      PagelessWordsIgnored(cmp, book, init);
      var kept := WithPages(book, init);
      if PagesOf(book, w) != [] {
        assert (kept + [w])[..|kept|] == kept;
      } else {
        assert WithPages(book, words) == kept;
        assert Index(cmp, book, init).0 + [] == Index(cmp, book, init).0;
      }
    }
  }

  /** The book with alma on pages 1 and 2, fa on page 1, körte on page 3. */
  const SampleBook: Book := Book([1, 2, 3], map[1 := {"alma", "fa"}, 2 := {"alma"}, 3 := {"körte"}])

  /**
    alma and körte: a header for a, the entry of alma on pages 1-2, a header
    for k and the entry of körte on page 3, when the collation opens a after
    the sentinel and k after a.
   */
  lemma SampleIndex(cmp: Comparator)
    requires Opens(cmp, Sentinel, "a") && Opens(cmp, "a", "k")
    ensures Index(cmp, SampleBook, ["alma", "körte"]).0 ==
      [Header("a"), Entry("alma", [1, 2]), Header("k"), Entry("körte", [3])]
  {
    var b := SampleBook;
    SamplePages();
    assert Prefix("alma", 1) == "a";
    assert Prefix("körte", 1) == "k";
    assert NextAlphabetLetter(cmp, Sentinel, "alma") == "a";
    assert Step(cmp, b, Sentinel, "alma") == ([Header("a"), Entry("alma", [1, 2])], "a");
    IndexSnoc(cmp, b, [], "alma");
    assert [] + ["alma"] == ["alma"] && ["alma"] + ["körte"] == ["alma", "körte"];
    assert NextAlphabetLetter(cmp, "a", "körte") == "k";
    IndexSnoc(cmp, b, ["alma"], "körte");
  }

  /** The pages of the sample words. */
  lemma SamplePages()
    ensures PagesOf(SampleBook, "alma") == [1, 2]
    ensures PagesOf(SampleBook, "körte") == [3]
  {
    var pages := SampleBook.pages;
    assert [1, 2, 3][..2] == [1, 2] && [1, 2][..1] == [1] && [1][..0] == [];
    assert "alma" !in pages[3] && "körte" !in pages[1] && "körte" !in pages[2];
    assert PagesIn([1], pages, "alma") == [1];
    assert PagesIn([1, 2], pages, "alma") == [1, 2];
    assert PagesIn([1, 2], pages, "körte") == [];
  }

  /** The words compare selects from two frequency tables read: the first head of the ranking. */
  function TopWords(fc1: (map<string, nat>, nat), fc2: (map<string, nat>, nat), head: int): seq<string>
  {
    FreqLists.PyHead(FreqLists.Ranking(FreqLists.Items(fc1.0, fc1.1), FreqLists.Items(fc2.0, fc2.1)), head)
  }

  /**
    main for the contents of its files: the book, the book's and the general
    frequency lists, the number of words, and the optional exclude and
    include lists. The errors come in the order the files are read; on
    success the output is the index of the selected words in some order the
    collation accepts.
   */
  method CreateIndex(cmp: Comparator, bookLines: seq<string>, bookFreqLines: seq<string>,
                     generalFreqLines: seq<string>, numberOfWords: int,
                     excludeLines: Option<seq<string>>, includeLines: Option<seq<string>>)
    returns (r: Result<seq<string>>)
    requires IsCollation(cmp)
    ensures BookOf(bookLines).Err? ==> r == Err(BookOf(bookLines).error)
    ensures BookOf(bookLines).Ok? && FreqLists.ReadSpec(bookFreqLines).Err? ==>
      r == Err(FreqLists.ReadSpec(bookFreqLines).error)
    ensures BookOf(bookLines).Ok? && FreqLists.ReadSpec(bookFreqLines).Ok? && FreqLists.ReadSpec(generalFreqLines).Err? ==>
      r == Err(FreqLists.ReadSpec(generalFreqLines).error)
    ensures r.Ok? <==>
      BookOf(bookLines).Ok? && FreqLists.ReadSpec(bookFreqLines).Ok? && FreqLists.ReadSpec(generalFreqLines).Ok?
    ensures r.Ok? ==>
      var selected := Selection(TopWords(FreqLists.ReadSpec(bookFreqLines).value, FreqLists.ReadSpec(generalFreqLines).value, numberOfWords),
                                WordList(excludeLines), WordList(includeLines));
      exists sorted :: Sorted(cmp, sorted) && multiset(sorted) == multiset(selected) &&
        r.value == RenderAll(Index(cmp, BookOf(bookLines).value, sorted).0)
  {
    var book := ReadBook(bookLines);
    if book.Err? {
      return Err(book.error);
    }
    BookIsDict(ParseLines(bookLines));
    var excluded := WordList(excludeLines);
    var included := WordList(includeLines);
    var fl1 := FreqLists.Read(bookFreqLines);
    if fl1.Err? {
      return Err(fl1.error);
    }
    var fl2 := FreqLists.Read(generalFreqLines);
    if fl2.Err? {
      return Err(fl2.error);
    }
    var beg, _ := FreqLists.Compare(fl1.value, fl2.value, numberOfWords, false);
    var indexWords := Selection(beg.words, excluded, included);
    var sortedIndexWords := SortByCollation(cmp, indexWords);
    var out := EmitIndex(cmp, book.value, sortedIndexWords);
    r := Ok(out);
  }
}
