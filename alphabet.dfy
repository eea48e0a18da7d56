/**
  The Hungarian alphabet sections of create_index.py: when a word opens a
  new letter of the index (next_alphabet_letter) and how a letter is
  written as a section header (dict_initial).
 */
module Alphabet {
  import opened PyStr
  import opened Collation

  /** The two-character letters of the Hungarian alphabet. */
  const Digraphs: set<string> := {"cs", "dz", "gy", "ly", "ny", "sz", "ty", "zs"}

  /** The three-character letter of the Hungarian alphabet. */
  const Trigraphs: set<string> := {"dzs"}

  /**
    strcoll(initial + 'z', letter + 'a') < 0: even a word of the open section
    that goes on with 'z' sorts before a word of letter that goes on with 'a',
    so letter begins a later section.
   */
  predicate Opens(cmp: Comparator, initial: string, letter: string)
  {
    cmp(initial + "z", letter + "a") < 0
  }

  /**
    The letters a word may start with, shortest first: its first character,
    its first two when they form a digraph, its first three when they form
    the trigraph.
   */
  function Candidates(word: string): (c: seq<string>)
    ensures 1 <= |c| <= 3 && c[0] == Prefix(word, 1)
    ensures forall i, j :: 0 <= i < j < |c| ==> |c[i]| < |c[j]|
  {
    [Prefix(word, 1)]
    + (if Prefix(word, 2) in Digraphs then [Prefix(word, 2)] else [])
    + (if Prefix(word, 3) in Trigraphs then [Prefix(word, 3)] else [])
  }

  /**
    next_alphabet_letter(initial, word): the first of word's one-, two- and
    three-character letters, in that order, that opens a new section after
    initial; initial itself when none does.
   */
  function NextAlphabetLetter(cmp: Comparator, initial: string, word: string): (r: string)
    ensures r == initial || r in Candidates(word)
  {
    var first1, first2, first3 := Prefix(word, 1), Prefix(word, 2), Prefix(word, 3);
    if Opens(cmp, initial, first1) then first1
    else if first2 in Digraphs && Opens(cmp, initial, first2) then first2
    else if first3 in Trigraphs && Opens(cmp, initial, first3) then first3
    else initial
  }

  /**
    The letter next_alphabet_letter picks is the shortest candidate of the
    word that opens a new section, and initial stays open only when no
    candidate opens one.
   */
  lemma NextLetterShortest(cmp: Comparator, initial: string, word: string)
    ensures var r := NextAlphabetLetter(cmp, initial, word);
      (exists c :: c in Candidates(word) && Opens(cmp, initial, c)) ==>
        r in Candidates(word) && Opens(cmp, initial, r) &&
        forall c :: c in Candidates(word) && Opens(cmp, initial, c) ==> |r| <= |c|
    ensures (forall c :: c in Candidates(word) ==> !Opens(cmp, initial, c)) ==>
      NextAlphabetLetter(cmp, initial, word) == initial
  {
    var cs := Candidates(word);
    var first1, first2, first3 := Prefix(word, 1), Prefix(word, 2), Prefix(word, 3);
    assert forall c :: c in cs <==>
      c == first1 || (c == first2 && first2 in Digraphs) || (c == first3 && first3 in Trigraphs);
    assert |first1| <= |first2| <= |first3|;
  }

  /** "cs" is a letter of its own: once "c" is open, any word in "cs" opens "cs" if the collation puts "cs" after "c". */
  lemma DigraphSection(cmp: Comparator, word: string)
    requires |word| >= 2 && word[..2] == "cs"
    requires !Opens(cmp, "c", "c") && Opens(cmp, "c", "cs")
    ensures NextAlphabetLetter(cmp, "c", word) == "cs"
  {
    assert Prefix(word, 1) == "c" && Prefix(word, 2) == "cs";
  }

  /** Any word in "dzs" opens the trigraph when neither "d" nor "dz" opens a section. */
  lemma TrigraphSection(cmp: Comparator, initial: string, word: string)
    requires |word| >= 3 && word[..3] == "dzs"
    requires !Opens(cmp, initial, "d") && !Opens(cmp, initial, "dz") && Opens(cmp, initial, "dzs")
    ensures NextAlphabetLetter(cmp, initial, word) == "dzs"
  {
    assert Prefix(word, 1) == "d" && Prefix(word, 2) == "dz" && Prefix(word, 3) == "dzs";
  }

  /** The vowel pairs that share a section header. */
  const DoubleLetters: seq<string> := ["aá", "eé", "ií", "oó", "öő", "uú", "üű"]

  /** The header "x, y" of the pair xy. */
  function PairHeader(pair: string): string
    requires |pair| == 2
  {
    [pair[0]] + ", " + [pair[1]]
  }

  /** The index of the first pair from k on of which letter is a substring, or |DoubleLetters| when there is none. */
  function FirstPairFrom(letter: string, k: nat): (r: nat)
    requires k <= |DoubleLetters|
    ensures k <= r <= |DoubleLetters|
    ensures r < |DoubleLetters| ==> IsSubstring(letter, DoubleLetters[r])
    ensures forall j :: k <= j < r ==> !IsSubstring(letter, DoubleLetters[j])
    decreases |DoubleLetters| - k
  {
    if k == |DoubleLetters| then k
    else if IsSubstring(letter, DoubleLetters[k]) then k
    else FirstPairFrom(letter, k + 1)
  }

  /**
    dict_initial(letter): the header "x, y" of the first vowel pair xy of
    which letter is a substring, or letter itself when there is none.
   */
  function DictInitial(letter: string): (r: string)
    ensures forall k ::
      (0 <= k < |DoubleLetters| && IsSubstring(letter, DoubleLetters[k]) &&
       (forall j :: 0 <= j < k ==> !IsSubstring(letter, DoubleLetters[j]))) ==>
        r == PairHeader(DoubleLetters[k])
    ensures (forall k :: 0 <= k < |DoubleLetters| ==> !IsSubstring(letter, DoubleLetters[k])) ==> r == letter
  {
    var k := FirstPairFrom(letter, 0);
    if k < |DoubleLetters| then PairHeader(DoubleLetters[k]) else letter
  }

  /** The one-character substrings of a two-character string are its two characters. */
  lemma SingleInPair(c: char, pair: string)
    requires |pair| == 2
    ensures IsSubstring([c], pair) <==> c == pair[0] || c == pair[1]
  {
    if c == pair[0] { assert [c] <= pair[0..]; }
    if c == pair[1] { assert [c] <= pair[1..]; }
  }

  /** No character belongs to two vowel pairs. */
  lemma PairsDisjoint(j: nat, k: nat)
    requires j < k < |DoubleLetters|
    ensures |DoubleLetters[j]| == |DoubleLetters[k]| == 2
    ensures DoubleLetters[j][0] !in DoubleLetters[k] && DoubleLetters[j][1] !in DoubleLetters[k]
  {
  }

  /** Both letters of a vowel pair, the plain and the accented one, get the pair's header. */
  lemma VowelPairHeader(k: nat, c: char)
    requires k < |DoubleLetters|
    requires c == DoubleLetters[k][0] || c == DoubleLetters[k][1]
    ensures DictInitial([c]) == PairHeader(DoubleLetters[k])
  {
    SingleInPair(c, DoubleLetters[k]);
    forall j | 0 <= j < k
      ensures !IsSubstring([c], DoubleLetters[j])
    {
      SingleInPair(c, DoubleLetters[j]);
      PairsDisjoint(j, k);
    }
  }

  /** 'a' and 'á' both give "a, á", and so does the empty string, a substring of every pair. */
  lemma HeaderOfA()
    ensures DictInitial("a") == "a, á"
    ensures DictInitial("á") == "a, á"
    ensures DictInitial("") == "a, á"
  {
    VowelPairHeader(0, 'a');
    VowelPairHeader(0, 'á');
    assert IsSubstring("", DoubleLetters[0]) by { assert "" <= DoubleLetters[0][0..]; }
  }

  /** A letter longer than two characters, or one whose first character is in no vowel pair (such as every digraph and the trigraph), is its own header. */
  lemma ConsonantHeader(letter: string)
    requires |letter| > 2 || (|letter| > 0 && forall k :: 0 <= k < |DoubleLetters| ==> letter[0] !in DoubleLetters[k])
    ensures DictInitial(letter) == letter
  {
    forall k, i | 0 <= k < |DoubleLetters| && 0 <= i <= |DoubleLetters[k]|
      ensures !(letter <= DoubleLetters[k][i..])
    {
      assert |DoubleLetters[k]| == 2;
      if i < 2 && |letter| <= 2 {
        assert letter[0] != DoubleLetters[k][i..][0];
      }
    }
  }
}
