/**
  detok_lemma.py: one line of emtsv output, "wordform TAB "ws" TAB [ana] TAB lemma",
  turned into the lemma followed by the whitespace that came after the word
  in the original text, so that the lines together give a lemmatized copy of
  the text.
 */
module DetokLemma {
  import opened Results
  import opened PyStr

  /** The form feed character. */
  const FormFeed: char := '\U{0C}'

  /**
    The whitespace column with its three escapes undone, one after the
    other: backslash-n becomes a newline, then backslash-t a tab, then
    backslash-f a form feed.
   */
  function Unescape(ws: string): string
  {
    var a := ReplacePair(ws, '\\', 'n', '\n');
    var b := ReplacePair(a, '\\', 't', '\t');
    ReplacePair(b, '\\', 'f', FormFeed)
  }

  /**
    The text printed for one input line: nothing for a blank line, an
    IndexError for a line with fewer than three fields, and otherwise the
    lemma (the wordform when the analysis is empty) followed by the
    unescaped whitespace.
   */
  function DetokLine(line: string): Result<Option<string>>
  {
    var line := Strip(line);
    if |line| == 0 then Ok(None)
    else
      var fields := Split(line, '\t');
      if |fields| < 3 then Err(IndexError)
      else
        var wordform := fields[0];
        var wsafter := StripChars(fields[1], {'"'});
        var ana := RStrip(LStrip(fields[2], {'['}), {']'});
        var lemmaText := if |fields| >= 4 then fields[3] else "";
        var lemmaText := if |ana| == 0 then wordform else lemmaText;
        Ok(Some(lemmaText + Unescape(wsafter)))
  }

  /**
    A line prints nothing exactly when it is blank, fails exactly when it
    is not blank and has fewer than three fields, and prints text otherwise.
   */
  lemma LineOutcome(line: string)
    ensures DetokLine(line) == Ok(None) <==> Strip(line) == ""
    ensures DetokLine(line).Err? <==> Strip(line) != "" && |Split(Strip(line), '\t')| < 3
    ensures DetokLine(line).Err? ==> DetokLine(line).error == IndexError
  {
  }

  /** The line joined from four tab-free fields is those four fields. */
  lemma SplitFour(a: string, b: string, c: string, d: string)
    requires '\t' !in a && '\t' !in b && '\t' !in c && '\t' !in d
    ensures Split(Join([a, b, c, d], "\t"), '\t') == [a, b, c, d]
  {
    SplitJoin([a, b, c, d], '\t');
  }

  /** The record wordform TAB ws TAB ana TAB lemma as one line. */
  function RecordLine(wordform: string, ws: string, ana: string, lemmaText: string): string
  {
    Join([wordform, ws, ana, lemmaText], "\t")
  }

  /**
    For a record of four fields, none with a tab, that starts and ends with
    a non-blank character: the output is the lemma, or the wordform when the
    analysis is empty once leading '[' and trailing ']' are stripped, and
    right after it, without separator, the whitespace column with its
    surrounding quotes stripped and its escapes undone.
   */
  lemma RecordOutput(wordform: string, ws: string, ana: string, lemmaText: string)
    requires '\t' !in wordform && '\t' !in ws && '\t' !in ana && '\t' !in lemmaText
    requires |wordform| > 0 && wordform[0] !in Whitespace
    requires |lemmaText| > 0 && lemmaText[|lemmaText| - 1] !in Whitespace
    ensures var bare := RStrip(LStrip(ana, {'['}), {']'});
      DetokLine(RecordLine(wordform, ws, ana, lemmaText)) ==
        Ok(Some((if bare == "" then wordform else lemmaText) + Unescape(StripChars(ws, {'"'}))))
  {
    var line := RecordLine(wordform, ws, ana, lemmaText);
    RecordLineEnds(wordform, ws, ana, lemmaText);
    StripNonBlank(line);
    SplitFour(wordform, ws, ana, lemmaText);
  }

  /**
    For any record of three or more tab-free fields that starts and ends
    with a non-blank character: the output is the fourth field, or the empty
    lemma when there is no fourth field, replaced by the wordform when the
    analysis is empty; fields after the fourth play no part.
   */
  lemma FieldsOutput(fields: seq<string>)
    requires |fields| >= 3 && forall i :: 0 <= i < |fields| ==> '\t' !in fields[i]
    requires |fields[0]| > 0 && fields[0][0] !in Whitespace
    requires var last := fields[|fields| - 1]; |last| > 0 && last[|last| - 1] !in Whitespace
    ensures var bare := RStrip(LStrip(fields[2], {'['}), {']'});
      var lemmaText := if |fields| >= 4 then fields[3] else "";
      DetokLine(Join(fields, "\t")) ==
        Ok(Some((if bare == "" then fields[0] else lemmaText) + Unescape(StripChars(fields[1], {'"'}))))
  {
    var line := Join(fields, "\t");
    JoinEnds(fields, "\t");
    StripNonBlank(line);
    SplitJoin(fields, '\t');
  }

  /**
    A record of three fields, wordform, whitespace and analysis but no lemma,
    prints the empty lemma, or the wordform when the analysis is empty,
    followed by the unescaped whitespace.
   */
  lemma NoLemmaField(fields: seq<string>)
    requires |fields| == 3 && forall i :: 0 <= i < 3 ==> '\t' !in fields[i]
    requires |fields[0]| > 0 && fields[0][0] !in Whitespace
    requires |fields[2]| > 0 && fields[2][|fields[2]| - 1] !in Whitespace
    ensures var bare := RStrip(LStrip(fields[2], {'['}), {']'});
      DetokLine(Join(fields, "\t")) ==
        Ok(Some((if bare == "" then fields[0] else "") + Unescape(StripChars(fields[1], {'"'}))))
  {
    FieldsOutput(fields);
  }

  /**
    Fields after the lemma are ignored: the record with more fields prints
    what its first four fields print.
   */
  lemma ExtraFieldsIgnored(fields: seq<string>)
    requires |fields| >= 5 && forall i :: 0 <= i < |fields| ==> '\t' !in fields[i]
    requires |fields[0]| > 0 && fields[0][0] !in Whitespace
    requires |fields[3]| > 0 && fields[3][|fields[3]| - 1] !in Whitespace
    requires var last := fields[|fields| - 1]; |last| > 0 && last[|last| - 1] !in Whitespace
    ensures DetokLine(Join(fields, "\t")) == DetokLine(Join(fields[..4], "\t"))
  {
    FieldsOutput(fields);
    FieldsOutput(fields[..4]);
  }

  /** The joined record starts with the wordform's first character and ends with the lemma's last. */
  lemma RecordLineEnds(wordform: string, ws: string, ana: string, lemmaText: string)
    requires |wordform| > 0 && |lemmaText| > 0
    ensures var line := RecordLine(wordform, ws, ana, lemmaText);
      |line| > 0 && line[0] == wordform[0] && line[|line| - 1] == lemmaText[|lemmaText| - 1]
  {
    var line := RecordLine(wordform, ws, ana, lemmaText);
    assert line == wordform + "\t" + ws + "\t" + ana + "\t" + lemmaText by {
      assert [ana, lemmaText][1..] == [lemmaText];
      assert Join([ana, lemmaText], "\t") == ana + "\t" + lemmaText;
      assert [ws, ana, lemmaText][1..] == [ana, lemmaText];
      assert Join([ws, ana, lemmaText], "\t") == ws + "\t" + ana + "\t" + lemmaText;
      assert [wordform, ws, ana, lemmaText][1..] == [ws, ana, lemmaText];
    }
  }

  /** A line that starts and ends with a non-blank character is its own strip. */
  lemma StripNonBlank(line: string)
    requires |line| > 0 && line[0] !in Whitespace && line[|line| - 1] !in Whitespace
    ensures Strip(line) == line
  {
  }

  /** None of the three escapes is left in the output's whitespace. */
  lemma NoEscapeLeft(ws: string)
    ensures !HasPair(Unescape(ws), '\\', 'n')
    ensures !HasPair(Unescape(ws), '\\', 't')
    ensures !HasPair(Unescape(ws), '\\', 'f')
  {
    var a := ReplacePair(ws, '\\', 'n', '\n');
    var b := ReplacePair(a, '\\', 't', '\t');
    ReplacePairNoNewPair(ws, '\\', 'n', '\n', '\\', 'n');
    ReplacePairNoNewPair(a, '\\', 't', '\t', '\\', 'n');
    ReplacePairNoNewPair(a, '\\', 't', '\t', '\\', 't');
    ReplacePairNoNewPair(b, '\\', 'f', FormFeed, '\\', 'n');
    ReplacePairNoNewPair(b, '\\', 'f', FormFeed, '\\', 't');
    ReplacePairNoNewPair(b, '\\', 'f', FormFeed, '\\', 'f');
  }

  /** Whitespace without a backslash is printed as it is. */
  lemma PlainWhitespace(ws: string)
    requires '\\' !in ws
    ensures Unescape(ws) == ws
  {
    ReplacePairAbsent(ws, '\\', 'n', '\n');
    ReplacePairAbsent(ws, '\\', 't', '\t');
    ReplacePairAbsent(ws, '\\', 'f', FormFeed);
  }

  /** The letters emtsv writes after a backslash for newline, tab and form feed. */
  const EscapeCodes: map<char, char> := map['\n' := 'n', '\t' := 't', FormFeed := 'f']

  /** Writes every character of codes as a backslash followed by its letter. */
  function EscapeWith(ws: string, codes: map<char, char>): string
  {
    if ws == [] then ""
    else (if ws[0] in codes then ['\\', codes[ws[0]]] else [ws[0]]) + EscapeWith(ws[1..], codes)
  }

  /** How emtsv writes the whitespace after a word: newline, tab and form feed escaped. */
  function Escape(ws: string): string
  {
    EscapeWith(ws, EscapeCodes)
  }

  /** Replacing a pattern that starts with a character other than c leaves a leading c in place. */
  lemma ReplacePairCons(c: char, t: string, a: char, b: char, r: char)
    requires c != a
    ensures ReplacePair([c] + t, a, b, r) == [c] + ReplacePair(t, a, b, r)
  {
    assert ([c] + t)[1..] == t;
  }

  /**
    Undoing the escape of one character x turns the text escaped for codes
    into the text escaped for codes without x, when the text has no
    backslash of its own and the letters are distinct and not backslashes.
   */
  lemma {:induction false} UndoOneEscape(ws: string, codes: map<char, char>, x: char)
    requires '\\' !in ws && x in codes
    requires forall k :: k in codes ==> codes[k] != '\\'
    requires forall k :: k in codes && k != x ==> codes[k] != codes[x]
    ensures ReplacePair(EscapeWith(ws, codes), '\\', codes[x], x) == EscapeWith(ws, codes - {x})
    decreases |ws|
  {
    if ws != [] {
      var c, t := ws[0], ws[1..];
      UndoOneEscape(t, codes, x);
      assert ws == [c] + t;
      if c == x {
        UndoEscapeOf(t, codes, x);
      } else if c in codes {
        KeepOtherEscape(c, t, codes, x);
      } else {
        KeepPlain(c, t, codes, x);
      }
    }
  }

  /** The escape of x itself becomes x again, and the rest is undone as before. */
  lemma UndoEscapeOf(t: string, codes: map<char, char>, x: char)
    requires x in codes
    requires ReplacePair(EscapeWith(t, codes), '\\', codes[x], x) == EscapeWith(t, codes - {x})
    ensures ReplacePair(EscapeWith([x] + t, codes), '\\', codes[x], x) == EscapeWith([x] + t, codes - {x})
  {
    var rest := EscapeWith(t, codes);
    assert ([x] + t)[1..] == t;
    assert EscapeWith([x] + t, codes) == ['\\', codes[x]] + rest;
    assert (['\\', codes[x]] + rest)[2..] == rest;
  }

  /** The escape of a character other than x is kept, and the rest is undone as before. */
  lemma KeepOtherEscape(c: char, t: string, codes: map<char, char>, x: char)
    requires c in codes && x in codes && c != x
    requires codes[c] != '\\' && codes[c] != codes[x]
    requires ReplacePair(EscapeWith(t, codes), '\\', codes[x], x) == EscapeWith(t, codes - {x})
    ensures ReplacePair(EscapeWith([c] + t, codes), '\\', codes[x], x) == EscapeWith([c] + t, codes - {x})
  {
    var y := codes[c];
    assert c in codes - {x} && (codes - {x})[c] == y;
    EscapeWithCons(c, t, codes);
    EscapeWithCons(c, t, codes - {x});
    KeepEscapePair(y, EscapeWith(t, codes), codes[x], x);
  }

  /** Escaping a leading character, then the rest. */
  lemma EscapeWithCons(c: char, t: string, codes: map<char, char>)
    ensures EscapeWith([c] + t, codes) == (if c in codes then ['\\', codes[c]] else [c]) + EscapeWith(t, codes)
  {
    assert ([c] + t)[1..] == t;
  }

  /** A backslash followed by a letter other than b and other than a backslash is kept as a pair. */
  lemma KeepEscapePair(y: char, rest: string, b: char, r: char)
    requires y != b && y != '\\'
    ensures ReplacePair(['\\', y] + rest, '\\', b, r) == ['\\', y] + ReplacePair(rest, '\\', b, r)
  {
    assert ['\\', y] + rest == ['\\'] + ([y] + rest);
    ReplacePairLeading(y, rest, b, r);
    ReplacePairCons(y, rest, '\\', b, r);
    assert ['\\'] + ([y] + ReplacePair(rest, '\\', b, r)) == ['\\', y] + ReplacePair(rest, '\\', b, r);
  }

  /** A character without an escape is kept, and the rest is undone as before. */
  lemma KeepPlain(c: char, t: string, codes: map<char, char>, x: char)
    requires c !in codes && c != '\\' && x in codes
    requires ReplacePair(EscapeWith(t, codes), '\\', codes[x], x) == EscapeWith(t, codes - {x})
    ensures ReplacePair(EscapeWith([c] + t, codes), '\\', codes[x], x) == EscapeWith([c] + t, codes - {x})
  {
    var rest := EscapeWith(t, codes);
    assert ([c] + t)[1..] == t;
    assert EscapeWith([c] + t, codes) == [c] + rest;
    ReplacePairCons(c, rest, '\\', codes[x], x);
  }

  /** A backslash followed by a letter other than b is kept, and the scan goes on after it. */
  lemma ReplacePairLeading(y: char, rest: string, b: char, r: char)
    requires y != b
    ensures ReplacePair(['\\'] + ([y] + rest), '\\', b, r) == ['\\'] + ReplacePair([y] + rest, '\\', b, r)
  {
    assert (['\\'] + ([y] + rest))[1..] == [y] + rest;
  }

  /** Escaping no character changes nothing. */
  lemma {:induction false} EscapeNothing(ws: string)
    ensures EscapeWith(ws, map[]) == ws
    decreases |ws|
  {
    if ws != [] {
      EscapeNothing(ws[1..]);
      assert ws == [ws[0]] + ws[1..];
    }
  }

  /** The whitespace emtsv escaped is printed back as it was, when it holds no backslash. */
  lemma UnescapeEscape(ws: string)
    requires '\\' !in ws
    ensures Unescape(Escape(ws)) == ws
  {
    var m0 := EscapeCodes;
    var m1 := m0 - {'\n'};
    var m2 := m1 - {'\t'};
    UndoOneEscape(ws, m0, '\n');
    UndoOneEscape(ws, m1, '\t');
    UndoOneEscape(ws, m2, FormFeed);
    assert m2 - {FormFeed} == map[];
    EscapeNothing(ws);
  }
}
