# Book index scripts — a Dafny model

This project models the core of a small set of Python scripts that turn a
Hungarian book into a back-of-book index. Dafny proves the properties listed below.

* `create_index.py` reads the book as lines of "page TAB text". It picks the
  index words: the words whose relative frequency in the book's frequency list
  is highest compared with a general frequency list, minus an exclude list,
  plus an include list. It sorts them with the Hungarian collation and prints
  one `__word__ pages  ` line per word that occurs in the book. Runs of
  consecutive pages are merged into `b-e` items (`merge_adjacent`). A
  `## letter` header is printed whenever a word opens a new letter of the
  Hungarian alphabet: digraphs such as `cs` and the trigraph `dzs` are letters
  of their own (`next_alphabet_letter`), and an accented vowel shares the
  header of its plain vowel (`dict_initial`).
* `freqlists.py` reads "count TAB word" frequency lists into a `FreqList`
  object. It compares two lists by ranking the words found in both by the
  ratio of their relative frequencies.
* `detok_lemma.py` turns emtsv output lines ("wordform TAB "ws" TAB [ana] TAB
  lemma") into the lemma, followed by the whitespace that came after the word
  in the original text, with that whitespace's `\n`, `\t` and `\f` escapes undone.

The modules:

| module | file | contents |
|---|---|---|
| `Results` | `results.dfy` | the Python exceptions that can arise (`ValueError`, `ZeroDivisionError`, `IndexError`), `Result` and `Option` |
| `PyStr` | `pystr.dfy` | the Python `str` operations the scripts use: strip, split, partition, replace, substring, `int()` and `str()` of naturals |
| `Collation` | `collation.dfy` | `locale.strcoll` as a comparator parameter, and sorting a set under it |
| `PageRuns` | `page_runs.dfy` | `merge_adjacent` and `format_item` |
| `Alphabet` | `alphabet.dfy` | `next_alphabet_letter` and `dict_initial` |
| `FreqLists` | `freqlists.dfy` | the `FreqList` class, `read` and `compare` |
| `IndexBuilder` | `index_builder.dfy` | the main routine of `create_index.py` |
| `DetokLemma` | `detok_lemma.dfy` | the per-line transformation of `detok_lemma.py` |

The model follows the code's form. The `FreqList` class keeps its mutable
`dic` field, and `fl[word]` is a method that inserts the default entry, as a
`defaultdict` does. `merge_adjacent` takes a `PageList` object, because it
pops the caller's list. The loops of `read`, `compare`, the book reader and
the index printer are methods with loop invariants. Each of these methods is
proved equal to a specification function, and the lemmas prove what that
function means.

In three places the scripts do something other than what a reader of their
names and comments might expect. The model follows the code in each:

* `next_alphabet_letter` tries the one-, two- and three-character letter of
  the word in that order and returns the first one that opens a section. It
  picks the *shortest* opening candidate, not the longest
  (`Alphabet.NextLetterShortest`).
* The pages of a word are listed in the order the book's dict first met them,
  i.e. the order of the page numbers' first lines (`IndexBuilder.BookOrder`,
  `IndexBuilder.PagesOfMeaning`). This is not numeric order.
  `merge_adjacent` only merges neighbours that go up by one;
  `PageRuns.MergedRoundTrip` holds for any order.
* `read` adds every accepted count to the total. A word listed twice keeps its
  last count, but both counts are in the total (`FreqLists.RepeatedWordLines`).

## Model

| member | source | states |
|---|---|---|
| PageRuns.FormatItem | scripts/create_index.py:23-24 | definition: `b-e` when b < e, else `b` |
| PageRuns.Merged | scripts/create_index.py:17-38 | definition: the items of the maximal runs of numbers going up by one, scanned left to right |
| PageRuns.MergeAdjacent | scripts/create_index.py:17-38 | the caller's list loses its first element, as `pop(0)` removes it, and the result is `Merged` of the original list: one item per maximal run of numbers going up by one |
| PageRuns.MergedRoundTrip | scripts/create_index.py:23-38 | expanding each item (`b` to `[b]`, `b-e` to `[b..e]`) and concatenating gives back exactly the input list, for any list |
| PageRuns.MergedShape | scripts/create_index.py:23-37 | every item parses as a run with `lo <= hi`; an item has a dash exactly when `lo < hi`; consecutive runs never touch; for a strictly increasing list they are separated by a gap of more than one |
| PageRuns.MergedEmpty | scripts/create_index.py:26-27 | the result is empty exactly when the list is empty |
| PageRuns.MergedLength | scripts/create_index.py:29-38 | there are never more items than pages |
| PageRuns.DocstringExample | scripts/create_index.py:21 | `[1, 4, 5, 6, 8, 9, 12]` gives `['1', '4-6', '8-9', '12']` |
| Alphabet.NextAlphabetLetter | scripts/create_index.py:41-66 | the result is `initial` or one of the word's candidate letters |
| Alphabet.NextLetterShortest | scripts/create_index.py:50-66 | when some candidate (first character, digraph prefix, trigraph prefix) opens a new section after `initial`, i.e. `strcoll(initial+'z', letter+'a') < 0`, the result is the shortest such candidate; when none does, the result is `initial` |
| Alphabet.DigraphSection | scripts/create_index.py:54-61 | any word starting with `cs`, after `c`, opens the letter `cs` when `c` itself opens no new section (`!Opens(cmp, "c", "c")`) and the collation places `cs` after `c` (`Opens(cmp, "c", "cs")`) |
| Alphabet.TrigraphSection | scripts/create_index.py:55-64 | any word starting with `dzs` opens `dzs` after a given section letter when neither `d` nor `dz` opens a section after it and `dzs` does |
| Alphabet.DictInitial | scripts/create_index.py:71-80 | the header is `"x, y"` for the first vowel pair `xy` that has the letter as a substring, and the letter itself when there is no such pair |
| Alphabet.PairHeader | scripts/create_index.py:77 | definition: the header `"x, y"` of the vowel pair `xy`, its two characters joined by a comma and a space; `VowelPairHeader` and `HeaderOfA` state which letters get it |
| Alphabet.VowelPairHeader | scripts/create_index.py:74-77 | both the plain and the accented vowel of each pair get that pair's header |
| Alphabet.HeaderOfA | scripts/create_index.py:74-77 | `a` and `á` give `"a, á"`; so does the empty string, which is a substring of every pair |
| Alphabet.ConsonantHeader | scripts/create_index.py:75-80 | a letter longer than two characters, or a non-empty letter whose first character is in no vowel pair (every digraph and the trigraph among them), is its own header |
| Collation.SortByCollation | scripts/create_index.py:113-114 | the result is sorted under the comparator and is a permutation of the set |
| Collation.SortedEnumeration | scripts/create_index.py:113-114 | a sorted enumeration of a set lists every word of the set exactly once |
| FreqLists.FreqList.constructor | scripts/freqlists.py:15-21 | `sumcnt` is stored, and every word gets the entry `{cnt, cnt/sumcnt}`; it requires a positive total when there is a word, because otherwise the divide raises |
| FreqLists.FreqList.Get | scripts/freqlists.py:23-24 | returns the word's entry, or the zero entry; the dict gains the zero entry for a missing key, and nothing else changes |
| FreqLists.Record | scripts/freqlists.py:38-40 | a line gives at most one record, and one exactly when it is accepted (two fields once stripped and split at tabs); `RecordRoundTrip` and `RecordMeaning` state what that record is |
| FreqLists.RecordRoundTrip | scripts/freqlists.py:38-40 | the line "count TAB word", for a tab-free count and word that begin and end it with non-blank characters, is accepted and gives back exactly (count, word) |
| FreqLists.RecordMeaning | scripts/freqlists.py:38-40 | conversely, a line's record is its stripped text cut at its only tab: neither field contains a tab, and count TAB word is the stripped line |
| FreqLists.Tally | scripts/freqlists.py:35-43 | definition: the (dic, cnt) pair the loop of `read` builds, with each accepted line's word set to its count and the count added to the total, or the `ValueError` of the first bad count |
| FreqLists.AddRecord | scripts/freqlists.py:41-43 | definition: one record applied to the tally, the `ValueError` of a count that is not a numeral, else the word set to that count and the count added to the total; `ReadRecord` and `TallyStep` tie it to the loop |
| FreqLists.ReadRecord | scripts/freqlists.py:40-43 | `int()` of the count raises `ValueError` on a non-numeral; otherwise the word is set to that count and the count is added to the total |
| FreqLists.ReadCountLine | scripts/freqlists.py:38-43 | a line without a record changes nothing; otherwise its record is applied |
| FreqLists.Read | scripts/freqlists.py:32-44 | the result is the tally of the file's lines: the error of the first bad count, the `ZeroDivisionError` of a zero total with words, or a fresh valid `FreqList` of the tallied counts and total |
| FreqLists.ReadSpec | scripts/freqlists.py:32-44 | definition: what `read` ends with, the tally's error, the `ZeroDivisionError` of the constructor when the total is 0 and a word was read, or the tallied counts and total; `Read` is proved against it |
| FreqLists.NewFreqList | scripts/freqlists.py:15-21 | fails with `ZeroDivisionError` exactly when the total is 0 and there is a word; otherwise builds the list |
| FreqLists.TallyStep | scripts/freqlists.py:37-43 | reading one more line applies that line's record, if it has one, to the tally so far |
| FreqLists.TallyErrorPersists | scripts/freqlists.py:41 | once a line raises, the whole read ends with that error |
| FreqLists.TallySucceeds | scripts/freqlists.py:41 | the tally succeeds exactly when every accepted count is a numeral |
| FreqLists.TallyTotal | scripts/freqlists.py:43 | the total is the sum of all accepted counts, repeated words included |
| FreqLists.TallyLastCount | scripts/freqlists.py:42 | a word is in the dict exactly when some record carries it, and it has the count of its last record |
| FreqLists.DigitLine | scripts/freqlists.py:38-41 | an instance of `RecordRoundTrip` together with `ParseNat`: the line "digit TAB a" gives the record (digit, "a"), whose count is the digit's value |
| FreqLists.RepeatedWordLines | scripts/freqlists.py:42-43 | two lines for the same word leave it with the second count, while the total is the sum of both |
| FreqLists.ScoreOf | scripts/freqlists.py:59-68 | definition: the entry of one word, the ratio of its frequencies and both counts, when both frequencies are positive after the (identity) smoothing of a zero second frequency |
| FreqLists.Scores | scripts/freqlists.py:56-68 | definition: the merged dict, the scored words among the words of either list |
| FreqLists.Ranking | scripts/freqlists.py:72-73 | definition: the merged words in the sorted order of compare |
| FreqLists.ScoredWords | scripts/freqlists.py:57-68 | a word is merged exactly when its frequency is positive in both lists, i.e. both totals and both counts are positive; it keeps both counts, and its score is `(cnt1*sum2)/(cnt2*sum1)` |
| FreqLists.Ranked | scripts/freqlists.py:72-73 | the ranking lists every merged word exactly once, each ranked before every later one by the key (-score, word) |
| FreqLists.RankingOrder | scripts/freqlists.py:72-73 | neighbouring words in the ranking have non-increasing scores, and words with equal scores are in increasing code-point order |
| FreqLists.LookupBoth | scripts/freqlists.py:59 | `fl1[word]` and `fl2[word]` return the entries the lists had before; each list gains the zero entry for a missing word and nothing else, totals unchanged, also when fl1 and fl2 are the same list |
| FreqLists.VisitWord | scripts/freqlists.py:59-68 | one pass of the loop: both lists gain exactly the word among their keys and keep every lookup, totals unchanged, and the merged dict of the words done so far becomes that of those words plus this one, so it gains the word exactly when it is scored |
| FreqLists.MergeLists | scripts/freqlists.py:56-68 | the merged dict is that of the scored words of both lists; each list gains zero entries for the words only the other had; totals are unchanged |
| FreqLists.ToSide | scripts/freqlists.py:76-77 | definition: one side of the result, the words alone, or when verbose each word paired with its merged entry |
| FreqLists.Compare | scripts/freqlists.py:47-79 | `beg` and `end` are the slices `[:head]` and `[-head:]` of the ranking, with entries when verbose; the lists are padded as by `MergeLists` |
| FreqLists.PyHead | scripts/freqlists.py:75 | `s[:k]` is a prefix of s |
| FreqLists.PyTail | scripts/freqlists.py:75 | `s[k:]` is a suffix of s |
| FreqLists.HeadAndTail | scripts/freqlists.py:75 | for `head >= 0`, `beg` is the first `min(head, n)` words and `end` the last `min(head, n)`; for `head == 0`, `end` is the whole ranking, since `-0 == 0` |
| IndexBuilder.ParseLine | scripts/create_index.py:91-92 | definition: a book line, stripped and cut at its first tab, gives `int()` of the text before the tab and the set of the space-separated words after it |
| IndexBuilder.AddPage | scripts/create_index.py:92 | definition: `book[p].update(words)` on the defaultdict, a known page gains the words, a new page joins the end of the order with exactly those words; `ReadPageLine` and `BookOrder` build on it |
| IndexBuilder.BookOf | scripts/create_index.py:87-92 | definition: the book built from all lines, pages in first-appearance order, each with the union of its lines' words, or the `ValueError` of the first bad page number |
| IndexBuilder.ReadBook | scripts/create_index.py:87-92 | the loop over the book's lines builds exactly `BookOf(lines)` |
| IndexBuilder.ReadPageLine | scripts/create_index.py:91-92 | a line whose page number is not a numeral raises its `ValueError`; otherwise its page, added to the order when new, gains the line's words |
| IndexBuilder.BookOfSucceeds | scripts/create_index.py:91-92 | the book can be built exactly when every line's page number parses, and the error is otherwise a `ValueError` |
| IndexBuilder.BookIsDict | scripts/create_index.py:87-92 | the book is a dict: each page once in its order, and the order holds exactly its keys |
| IndexBuilder.BookPages | scripts/create_index.py:91-92 | a page is in the book exactly when some line carries it |
| IndexBuilder.BookWords | scripts/create_index.py:92 | a word is on a page exactly when some line of that page has it among its space-separated words |
| IndexBuilder.BookOrder | scripts/create_index.py:87-92 | iterating the book yields pages in the order of their first lines |
| IndexBuilder.WordList | scripts/create_index.py:94-102 | definition: the stripped lines of an exclude or include file, and the empty set when no file is given |
| IndexBuilder.Selection | scripts/create_index.py:109 | definition: the set of the top words, minus the excluded words, plus the included words |
| IndexBuilder.TopWords | scripts/create_index.py:104-107 | definition: the first `number_of_words` words of the ranking of the two frequency lists read |
| IndexBuilder.SelectionRule | scripts/create_index.py:109 | an include word is always selected; an exclude word is selected only when it is also an include word; any other top word is selected |
| IndexBuilder.PagesOf | scripts/create_index.py:118-122 | definition: the pages, in the book's order, whose word set has the word |
| IndexBuilder.FindPages | scripts/create_index.py:118-122 | the pages found are `PagesOf(book, word)` |
| IndexBuilder.PagesOfMeaning | scripts/create_index.py:118-122 | those pages are exactly the pages that have the word, each once, listed in the order the book yields its pages |
| IndexBuilder.Step | scripts/create_index.py:118-130 | definition: one pass of the outer loop, nothing for a word on no page, else a header when the word opens a new letter and then its entry, with the new section letter |
| IndexBuilder.Index | scripts/create_index.py:116-130 | definition: the lines of the loop over the sorted words, starting from the section letter "0" |
| IndexBuilder.Render | scripts/create_index.py:128-130 | definition: a header prints as `## ` and the header of its letter, an entry as `__word__ ` followed by its merged pages joined by `, ` and two spaces |
| IndexBuilder.EmitWord | scripts/create_index.py:118-130 | prints what `Step` specifies: nothing for a word on no page; otherwise a header when the word opens a new letter, then the entry with the merged pages |
| IndexBuilder.EmitIndex | scripts/create_index.py:116-130 | the printed lines are the rendering of `Index` of the sorted words |
| IndexBuilder.IndexHeaders | scripts/create_index.py:124-128 | every header is directly followed by an entry; its letter is the one that entry's word opens after the current section, and differs from it; an entry with no header before it opens no new letter |
| IndexBuilder.IndexEntries | scripts/create_index.py:124-130 | every word that occurs in the book gets exactly one entry, with its pages, in the sorted order; words on no page get none |
| IndexBuilder.PagelessWordsIgnored | scripts/create_index.py:124 | dropping the words that occur on no page changes neither the lines nor the section cursor |
| IndexBuilder.SamplePages | scripts/create_index.py:118-122 | the pages of the sample words in a three-page book |
| IndexBuilder.SampleIndex | scripts/create_index.py:116-130 | the sample book's index is a header `a`, `alma` on pages 1 and 2, a header `k`, `körte` on page 3 |
| IndexBuilder.CreateIndex | scripts/create_index.py:87-130 | the errors come in the order the files are read (book, book list, general list); on success the output is the index of the selected words in some order sorted under the collation |
| DetokLemma.DetokLine | scripts/detok_lemma.py:15-37 | definition: the text printed for one input line, nothing for a blank line, `IndexError` for fewer than three fields, else the lemma or wordform and the unescaped whitespace |
| DetokLemma.Unescape | scripts/detok_lemma.py:33-35 | definition: the three replacements of backslash-n, backslash-t and backslash-f, in that order |
| DetokLemma.LineOutcome | scripts/detok_lemma.py:14-23 | a line prints nothing exactly when it is blank; it raises `IndexError` exactly when it is not blank and has fewer than three fields |
| DetokLemma.RecordOutput | scripts/detok_lemma.py:15-37 | a four-field record prints its lemma, or its wordform when the analysis is empty once brackets are stripped, followed directly by the unquoted, unescaped whitespace |
| DetokLemma.FieldsOutput | scripts/detok_lemma.py:15-37 | for any record of three or more tab-free fields that begins and ends with non-blank characters: the fourth field, or the empty lemma when there is none, replaced by the wordform when the analysis is empty, followed by the unescaped whitespace |
| DetokLemma.NoLemmaField | scripts/detok_lemma.py:22-23 | a record without a lemma field prints the empty lemma (or the wordform when the analysis is empty) followed by the whitespace |
| DetokLemma.ExtraFieldsIgnored | scripts/detok_lemma.py:19-23 | a record of five or more fields prints what its first four fields print |
| DetokLemma.NoEscapeLeft | scripts/detok_lemma.py:33-35 | none of the three escape sequences is left in the printed whitespace |
| DetokLemma.PlainWhitespace | scripts/detok_lemma.py:33-35 | whitespace with no backslash is printed unchanged |
| DetokLemma.UnescapeEscape | scripts/detok_lemma.py:33-35 | undoing the escapes of whitespace that emtsv escaped (newline, tab, form feed) gives the original whitespace, when it has no backslash |
| PyStr.SplitJoinsBack | scripts/freqlists.py:38 | joining the pieces of `split(sep)` with `sep` gives the string back |
| PyStr.LStripMeaning | scripts/detok_lemma.py:21 | `lstrip` drops exactly the leading characters in the set |
| PyStr.RStripMeaning | scripts/detok_lemma.py:21 | `rstrip` drops exactly the trailing characters in the set |
| PyStr.ParseNat | scripts/freqlists.py:41 | `int()` succeeds exactly on a non-empty string of ASCII digits; otherwise it raises `ValueError` |
| PyStr.ParseNatToString | scripts/create_index.py:24 | `int(str(n)) == n`, so the page numbers printed are read back as themselves |

## Left out

- Command-line parsing, opening files, reading stdin and printing are not modelled. The scripts' operations take the files' lines as sequences and return the printed lines. `freqlists.main` only prints and is left out.
- `locale.setlocale` and the rules of `strcoll` are left out. The collation is a comparator parameter that is only assumed to be a total preorder.
- Collation: the sort order among words that the collation ranks equal is left open. `sorted` is stable over the set's iteration order, and CPython's set order is not modelled. `IndexBuilder.CreateIndex` therefore states its output for *some* sorted order of the selected words.
- FreqLists.MergeLists: the order in which the loop visits the set of words is not modelled. It has no effect on the merged dict or on the padded lists.
- FreqLists.Compare: scores are exact rational ratios `f1/f2` instead of floating-point `log10(f1/f2)`. `log10` is increasing, so the order is the same. Float rounding, which could make two nearly equal scores tie or swap, is not modelled, and neither is the verbose `logratio` value itself.
- PyStr.ParseNat: accepts only ASCII digit strings. Python's `int()` also accepts a sign, surrounding whitespace, underscores between digits and non-ASCII decimal digits. A negative count or page number, which the scripts accept, is a `ValueError` in the model.
- FreqLists.FreqList.constructor: requires a positive total when the counts are non-empty, instead of raising. `FreqLists.NewFreqList` models the raise as a `ZeroDivisionError` result.
- The inner `defaultdict(int)` that `FreqList` hands out for a missing word is modelled as the entry with count 0 and frequency 0. Only those two keys are ever read from it.
- `__str__` of `FreqList` is not part of this model.
- The `smooth` hook is the identity, as in the code. Its commented-out epsilon variant is not modelled.
