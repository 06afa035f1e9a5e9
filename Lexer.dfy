/** The tokenizer of src/JSON.ts (`tokenize`, lines 32-108) as a function of
    the text still to be scanned, and what it does with each kind of input. */
module Lexer {
  import opened JsonTypes

  /** The index of the first `"` in `s` at or after `k`, or `|s|` when there
      is none: where the string scan of line 62 stops, if it stops. */
  function QuoteFrom(s: string, k: nat): (r: nat)
    requires k <= |s|
    ensures k <= r <= |s|
    ensures r < |s| ==> s[r] == '"'
    decreases |s| - k
  {
    if k == |s| || s[k] == '"' then k else QuoteFrom(s, k + 1)
  }

  /** The index of the first character of `s` at or after `k` outside
      `[\d.eE+-]`, or `|s|` when there is none: where the number scan of
      line 75 stops, if it stops. */
  function NumberEnd(s: string, k: nat): (r: nat)
    requires k <= |s|
    ensures k <= r <= |s|
    ensures r < |s| ==> !IsNumberChar(s[r])
    decreases |s| - k
  {
    if k == |s| || !IsNumberChar(s[k]) then k else NumberEnd(s, k + 1)
  }

  /** No quote comes between `k` and the quote the search finds. */
  lemma {:induction false} QuoteFromSkips(s: string, k: nat)
    requires k <= |s|
    ensures forall j :: k <= j < QuoteFrom(s, k) ==> s[j] != '"'
    decreases |s| - k
  {
    if k < |s| && s[k] != '"' {
      QuoteFromSkips(s, k + 1);
    }
  }

  /** Every character between `k` and the end of the run is in the class. */
  lemma {:induction false} NumberEndSkips(s: string, k: nat)
    requires k <= |s|
    ensures forall j :: k <= j < NumberEnd(s, k) ==> IsNumberChar(s[j])
    decreases |s| - k
  {
    if k < |s| && IsNumberChar(s[k]) {
      NumberEndSkips(s, k + 1);
    }
  }

  /** The first quote at or after `k` is at `r` when `r` is one, or the end,
      and no quote comes before it. */
  lemma {:induction false} QuoteFromIs(s: string, k: nat, r: nat)
    requires k <= r <= |s|
    requires forall j :: k <= j < r ==> s[j] != '"'
    requires r < |s| ==> s[r] == '"'
    ensures QuoteFrom(s, k) == r
    decreases r - k
  {
    if k < r {
      QuoteFromIs(s, k + 1, r);
    }
  }

  /** The number run from `k` ends at `r` when `s[r]` is outside the class,
      or `r` is the end, and every character before it is inside. */
  lemma {:induction false} NumberEndIs(s: string, k: nat, r: nat)
    requires k <= r <= |s|
    requires forall j :: k <= j < r ==> IsNumberChar(s[j])
    requires r < |s| ==> !IsNumberChar(s[r])
    ensures NumberEnd(s, k) == r
    decreases r - k
  {
    if k < r {
      NumberEndIs(s, k + 1, r);
    }
  }

  /** `s.startsWith(w, i)`: the text `w` appears in `s` at `i`. */
  predicate StartsWith(s: string, i: nat, w: string) {
    i + |w| <= |s| && s[i..i + |w|] == w
  }

  /** Puts `ts` in front of the tokens of a finished scan; a scan that threw
      or hangs stays as it is. */
  function Prepend(ts: seq<Token>, o: Outcome<seq<Token>>): Outcome<seq<Token>> {
    if o.Done? then Done(ts + o.value) else o
  }

  /** What one pass of the loop does at a cursor: emit tokens and move the
      cursor to `next`, or stop for good. */
  datatype Step = Emit(tokens: seq<Token>, next: nat) | Stop(outcome: Outcome<seq<Token>>)

  /** One pass of the loop body of src/JSON.ts:36-105 with the cursor at `i`:
      skip whitespace, a punctuation character, a string up to the next
      quote, a maximal number run, or one of the three literals; otherwise
      throw SyntaxError. A string with no closing quote or a number run
      reaching the end of the text makes the inner loop read past the end with
      no exit; the model reports `Hangs` for that non-result (an engine-limit
      RangeError or an out-of-memory abort). */
  function ScanAt(s: string, i: nat): (st: Step)
    requires i < |s|
    ensures st.Emit? ==> i < st.next <= |s|
    ensures st.Stop? ==> st.outcome == Hangs || st.outcome == Threw(SyntaxError)
  {
    var c := s[i];
    if IsWhitespace(c) then Emit([], i + 1)
    else if IsPunctuation(c) then Emit([Token(Punctuation, Text([c]))], i + 1)
    else if c == '"' then
      var close := QuoteFrom(s, i + 1);
      if close == |s| then Stop(Hangs) else Emit([Token(StringKind, Text(s[i + 1..close]))], close + 1)
    else if IsNumberStart(c) then
      var end := NumberEnd(s, i);
      if end == |s| then Stop(Hangs) else Emit([Token(NumberKind, Number(s[i..end]))], end)
    else if StartsWith(s, i, "true") then Emit([Token(BooleanKind, Boolean(true))], i + 4)
    else if StartsWith(s, i, "false") then Emit([Token(BooleanKind, Boolean(false))], i + 5)
    else if StartsWith(s, i, "null") then Emit([Token(NullKind, NullValue)], i + 4)
    else Stop(Threw(SyntaxError))
  }

  /** The outcome of scanning `s` from the cursor `i` to the end: the tokens,
      the SyntaxError of line 104, or `Hangs`. */
  function LexFrom(s: string, i: nat): (r: Outcome<seq<Token>>)
    requires i <= |s|
    ensures r.Threw? ==> r.error == SyntaxError
    decreases |s| - i
  {
    if i == |s| then Done([])
    else match ScanAt(s, i)
      case Emit(ts, next) => Prepend(ts, LexFrom(s, next))
      case Stop(o) => o
  }

  /** What `tokenize` does with the whole of `s`. */
  function Lex(s: string): (r: Outcome<seq<Token>>)
    ensures r.Threw? ==> r.error == SyntaxError
  {
    LexFrom(s, 0)
  }

  lemma PrependAssoc(a: seq<Token>, b: seq<Token>, o: Outcome<seq<Token>>)
    ensures Prepend(a, Prepend(b, o)) == Prepend(a + b, o)
  {
    if o.Done? {
      assert a + (b + o.value) == (a + b) + o.value;
    }
  }

  lemma PrependNothing(o: Outcome<seq<Token>>)
    ensures Prepend([], o) == o
  {
    if o.Done? {
      assert [] + o.value == o.value;
    }
  }

  /** A scan of `s` that has emitted `tokens` and reached `i` takes one step
      at `i`: it goes on from the step's new cursor with the step's tokens
      added, or ends with the step's outcome. */
  lemma LexStep(s: string, i: nat, tokens: seq<Token>)
    requires i < |s| && Lex(s) == Prepend(tokens, LexFrom(s, i))
    ensures ScanAt(s, i).Emit? ==>
      Lex(s) == Prepend(tokens + ScanAt(s, i).tokens, LexFrom(s, ScanAt(s, i).next))
    ensures ScanAt(s, i).Stop? ==> Lex(s) == ScanAt(s, i).outcome
  {
    if ScanAt(s, i).Emit? {
      PrependAssoc(tokens, ScanAt(s, i).tokens, LexFrom(s, ScanAt(s, i).next));
    }
  }

  /** The scan of `p + b` from inside `b` is the scan of `b`, with every
      cursor moved by `|p|`: the text before the cursor is never read. */
  lemma QuoteFromShift(p: string, b: string, k: nat)
    requires k <= |b|
    ensures QuoteFrom(p + b, |p| + k) == |p| + QuoteFrom(b, k)
  {
    var t := p + b;
    var r := QuoteFrom(b, k);
    QuoteFromSkips(b, k);
    assert forall j :: |p| <= j < |t| ==> t[j] == b[j - |p|];
    QuoteFromIs(t, |p| + k, |p| + r);
  }

  lemma NumberEndShift(p: string, b: string, k: nat)
    requires k <= |b|
    ensures NumberEnd(p + b, |p| + k) == |p| + NumberEnd(b, k)
  {
    var t := p + b;
    var r := NumberEnd(b, k);
    NumberEndSkips(b, k);
    assert forall j :: |p| <= j < |t| ==> t[j] == b[j - |p|];
    NumberEndIs(t, |p| + k, |p| + r);
  }

  lemma StartsWithShift(p: string, b: string, k: nat, w: string)
    requires k <= |b|
    ensures StartsWith(p + b, |p| + k, w) <==> StartsWith(b, k, w)
  {
    var t := p + b;
    if |p| + k + |w| <= |t| {
      assert t[|p| + k..|p| + k + |w|] == b[k..k + |w|];
    }
  }

  /** A string's scan in `p + b` is its scan in `b`, moved by `|p|`. */
  lemma StringShift(p: string, b: string, k: nat)
    requires k < |b|
    ensures QuoteFrom(p + b, |p| + k + 1) == |p| + QuoteFrom(b, k + 1)
    ensures QuoteFrom(b, k + 1) < |b| ==>
      (p + b)[|p| + k + 1..|p| + QuoteFrom(b, k + 1)] == b[k + 1..QuoteFrom(b, k + 1)]
  {
    QuoteFromShift(p, b, k + 1);
    var close := QuoteFrom(b, k + 1);
    assert (p + b)[|p| + k + 1..|p| + close] == b[k + 1..close];
  }

  /** A number's scan in `p + b` is its scan in `b`, moved by `|p|`. */
  lemma NumberShift(p: string, b: string, k: nat)
    requires k < |b|
    ensures NumberEnd(p + b, |p| + k) == |p| + NumberEnd(b, k)
    ensures (p + b)[|p| + k..|p| + NumberEnd(b, k)] == b[k..NumberEnd(b, k)]
  {
    NumberEndShift(p, b, k);
    var end := NumberEnd(b, k);
    assert (p + b)[|p| + k..|p| + end] == b[k..end];
  }

  lemma ScanAtShift(p: string, b: string, k: nat)
    requires k < |b|
    ensures ScanAt(b, k).Emit? ==>
      ScanAt(p + b, |p| + k) == Emit(ScanAt(b, k).tokens, |p| + ScanAt(b, k).next)
    ensures ScanAt(b, k).Stop? ==> ScanAt(p + b, |p| + k) == ScanAt(b, k)
  {
    assert (p + b)[|p| + k] == b[k];
    if IsWhitespace(b[k]) || IsPunctuation(b[k]) {
    } else if b[k] == '"' {
      StringShift(p, b, k);
    } else if IsNumberStart(b[k]) {
      NumberShift(p, b, k);
    } else {
      StartsWithShift(p, b, k, "true");
      StartsWithShift(p, b, k, "false");
      StartsWithShift(p, b, k, "null");
    }
  }

  /** One step of the scan from `i`, unfolded. */
  lemma LexFromStep(s: string, i: nat)
    requires i < |s|
    ensures ScanAt(s, i).Emit? ==>
      LexFrom(s, i) == Prepend(ScanAt(s, i).tokens, LexFrom(s, ScanAt(s, i).next))
    ensures ScanAt(s, i).Stop? ==> LexFrom(s, i) == ScanAt(s, i).outcome
  {
  }

  /** A pass of `b` at `k` that stops ends the scan of `p + b` at `|p| + k`
      the same way. */
  lemma LexFromShiftStop(p: string, b: string, k: nat)
    requires k < |b| && ScanAt(b, k).Stop?
    ensures LexFrom(p + b, |p| + k) == LexFrom(b, k)
  {
    ScanAtShift(p, b, k);
    LexFromStep(b, k);
    LexFromStep(p + b, |p| + k);
  }

  /** A pass of `b` at `k` that emits does the same in `p + b` at `|p| + k`,
      so the two scans agree once they agree from the next cursor. */
  lemma LexFromShiftEmit(p: string, b: string, k: nat)
    requires k < |b| && ScanAt(b, k).Emit?
    requires LexFrom(p + b, |p| + ScanAt(b, k).next) == LexFrom(b, ScanAt(b, k).next)
    ensures LexFrom(p + b, |p| + k) == LexFrom(b, k)
  {
    ScanAtShift(p, b, k);
    LexFromStep(b, k);
    LexFromStep(p + b, |p| + k);
  }

  lemma {:induction false} LexFromShift(p: string, b: string, k: nat)
    requires k <= |b|
    ensures LexFrom(p + b, |p| + k) == LexFrom(b, k)
    decreases |b| - k
  {
    if k < |b| {
      if ScanAt(b, k).Emit? {
        LexFromShift(p, b, ScanAt(b, k).next);
        LexFromShiftEmit(p, b, k);
      } else {
        LexFromShiftStop(p, b, k);
      }
    }
  }

  /** What follows a prefix is scanned as if it stood alone. */
  lemma LexAfter(p: string, b: string)
    ensures LexFrom(p + b, |p|) == Lex(b)
  {
    LexFromShift(p, b, 0);
  }

  /** A number lexeme as the tokenizer cuts it: it starts on `[\d-.]` and
      consists of `[\d.eE+-]` only. */
  predicate IsNumberLexeme(t: string) {
    |t| > 0 && IsNumberStart(t[0]) && forall j :: 0 <= j < |t| ==> IsNumberChar(t[j])
  }

  /** Every token one step emits is of one of the five types, paired with
      the value the tokenizer gives it (src/JSON.ts:53, 67, 80, 86, 92, 98). */
  lemma ScanAtLexical(s: string, i: nat)
    requires i < |s| && ScanAt(s, i).Emit?
    ensures forall t :: t in ScanAt(s, i).tokens ==> IsLexical(t)
  {
    if s[i] == '"' {
      var close := QuoteFrom(s, i + 1);
      QuoteFromSkips(s, i + 1);
      assert '"' !in s[i + 1..close];
    }
  }

  lemma {:induction false} LexFromLexical(s: string, i: nat)
    requires i <= |s| && LexFrom(s, i).Done?
    ensures forall t :: t in LexFrom(s, i).value ==> IsLexical(t)
    decreases |s| - i
  {
    if i < |s| {
      ScanAtLexical(s, i);
      LexFromLexical(s, ScanAt(s, i).next);
    }
  }

  /** Every token the tokenizer returns is of one of the five types. */
  lemma LexTokensAreLexical(s: string)
    requires Lex(s).Done?
    ensures forall t :: t in Lex(s).value ==> IsLexical(t)
  {
    LexFromLexical(s, 0);
  }

  lemma {:induction false} WhitespaceSkipped(w: string, s: string, k: nat)
    requires k <= |w|
    requires forall j :: 0 <= j < |w| ==> IsWhitespace(w[j])
    ensures LexFrom(w + s, k) == LexFrom(w + s, |w|)
    decreases |w| - k
  {
    if k < |w| {
      assert (w + s)[k] == w[k];
      WhitespaceSkipped(w, s, k + 1);
      PrependNothing(LexFrom(w + s, k + 1));
    }
  }

  /** The two ways a scan step at `j` cannot end: an opening quote with no
      later quote, or a number run reaching the end of the text. */
  predicate RunsOffEnd(s: string, j: nat)
    requires j < |s|
  {
    (s[j] == '"' && QuoteFrom(s, j + 1) == |s|) || (IsNumberStart(s[j]) && NumberEnd(s, j) == |s|)
  }

  /** The scan from `i` gets to the cursor `j`: every pass before `j`
      emits and moves on. */
  predicate Reaches(s: string, i: nat, j: nat)
    requires i <= |s|
    decreases |s| - i
  {
    i == j || (i < |s| && ScanAt(s, i).Emit? && Reaches(s, ScanAt(s, i).next, j))
  }

  /** A cursor the scan gets to lies between its start and the end. */
  lemma {:induction false} ReachesBound(s: string, i: nat, j: nat)
    requires i <= |s| && Reaches(s, i, j)
    ensures i <= j <= |s|
    decreases |s| - i
  {
    if i != j {
      ReachesBound(s, ScanAt(s, i).next, j);
    }
  }

  /** At a cursor where a string is never closed or a number run reaches
      the end of the text, the pass does not come back. */
  lemma RunsOffEndStops(s: string, j: nat)
    requires j < |s| && RunsOffEnd(s, j)
    ensures ScanAt(s, j) == Stop(Hangs)
  {
  }

  /** The scan from `i` hangs exactly when it gets to a cursor where a string
      is never closed or a number run reaches the end of the text (the loops
      of src/JSON.ts:62 and 75). */
  lemma {:induction false} LexHangsExactlyOffEnd(s: string, i: nat)
    requires i <= |s|
    ensures LexFrom(s, i).Hangs? <==>
      exists j :: i <= j < |s| && Reaches(s, i, j) && RunsOffEnd(s, j)
    decreases |s| - i
  {
    if i < |s| {
      if RunsOffEnd(s, i) {
        RunsOffEndStops(s, i);
        assert Reaches(s, i, i);
      } else if ScanAt(s, i).Stop? {
        forall j | i <= j < |s| && Reaches(s, i, j)
          ensures !RunsOffEnd(s, j)
        {
          assert j == i;
        }
      } else {
        var next := ScanAt(s, i).next;
        LexHangsExactlyOffEnd(s, next);
        if LexFrom(s, next).Hangs? {
          var j :| next <= j < |s| && Reaches(s, next, j) && RunsOffEnd(s, j);
          assert Reaches(s, i, j);
        } else {
          forall j | i <= j < |s| && Reaches(s, i, j)
            ensures !RunsOffEnd(s, j)
          {
            if j != i {
              ReachesBound(s, next, j);
            }
          }
        }
      }
    }
  }

  /** Whitespace in front of the text produces no token. */
  lemma LexSkipsWhitespace(w: string, s: string)
    requires forall j :: 0 <= j < |w| ==> IsWhitespace(w[j])
    ensures Lex(w + s) == Lex(s)
  {
    WhitespaceSkipped(w, s, 0);
    LexAfter(w, s);
  }

  /** Each of `{ } [ ] , :` yields one punctuation token holding that
      character, and the scan goes on with the next character. */
  lemma LexPunctuation(c: char, s: string)
    requires IsPunctuation(c)
    ensures Lex([c] + s) == Prepend([Token(Punctuation, Text([c]))], Lex(s))
  {
    assert ([c] + s)[0] == c;
    LexAfter([c], s);
  }

  /** A string token holds exactly the characters between the opening quote
      and the next quote, with no escape processing, and the scan resumes
      just past the closing quote. */
  lemma LexString(body: string, s: string)
    requires '"' !in body
    ensures Lex("\"" + body + "\"" + s) == Prepend([Token(StringKind, Text(body))], Lex(s))
  {
    var p := "\"" + body + "\"";
    var t := p + s;
    var close := |body| + 1;
    assert t[0] == '"' && t[close] == '"';
    assert forall j :: 1 <= j < close ==> t[j] == body[j - 1];
    QuoteFromIs(t, 1, close);
    assert t[1..close] == body;
    LexAfter(p, s);
  }

  /** A string that no later `"` closes makes the scan hang. */
  lemma LexUnclosedString(body: string)
    requires '"' !in body
    ensures Lex("\"" + body) == Hangs
  {
    var t := "\"" + body;
    assert forall j :: 1 <= j < |t| ==> t[j] == body[j - 1];
    QuoteFromIs(t, 1, |t|);
  }

  /** A number lexeme is the maximal run over `[\d.eE+-]` from its first
      character: followed by any other character, it becomes one number token
      and the scan goes on from that character. */
  lemma LexNumber(lexeme: string, s: string)
    requires IsNumberLexeme(lexeme)
    requires s != [] && !IsNumberChar(s[0])
    ensures Lex(lexeme + s) == Prepend([Token(NumberKind, Number(lexeme))], Lex(s))
  {
    var t := lexeme + s;
    assert forall j :: 0 <= j < |lexeme| ==> t[j] == lexeme[j];
    assert t[|lexeme|] == s[0];
    NumberEndIs(t, 0, |lexeme|);
    assert t[..|lexeme|] == lexeme;
    LexAfter(lexeme, s);
  }

  /** A number run that reaches the end of the text makes the scan hang. */
  lemma LexTrailingNumber(lexeme: string)
    requires IsNumberLexeme(lexeme)
    ensures Lex(lexeme) == Hangs
  {
    NumberEndIs(lexeme, 0, |lexeme|);
  }

  /** `true` yields a boolean true token and advances the scan by 4. */
  lemma LexTrue(s: string)
    ensures Lex("true" + s) == Prepend([Token(BooleanKind, Boolean(true))], Lex(s))
  {
    var t := "true" + s;
    assert t[0] == 't' && t[0..4] == "true";
    LexAfter("true", s);
  }

  /** `false` yields a boolean false token and advances the scan by 5. */
  lemma LexFalse(s: string)
    ensures Lex("false" + s) == Prepend([Token(BooleanKind, Boolean(false))], Lex(s))
  {
    var t := "false" + s;
    assert t[0] == 'f' && t[0..5] == "false";
    assert !StartsWith(t, 0, "true");
    LexAfter("false", s);
  }

  /** `null` yields a null token and advances the scan by 4. */
  lemma LexNull(s: string)
    ensures Lex("null" + s) == Prepend([Token(NullKind, NullValue)], Lex(s))
  {
    var t := "null" + s;
    assert t[0] == 'n' && t[0..4] == "null";
    assert !StartsWith(t, 0, "true");
    assert !StartsWith(t, 0, "false");
    LexAfter("null", s);
  }

  /** A character that starts no token throws SyntaxError: not whitespace,
      punctuation, a quote or `[\d-.]`, and the text there is none of the
      three literals (so `tru` or `nul` throws too). */
  lemma LexUnexpectedCharacter(c: char, s: string)
    requires !IsWhitespace(c) && !IsPunctuation(c) && c != '"' && !IsNumberStart(c)
    requires !StartsWith([c] + s, 0, "true") && !StartsWith([c] + s, 0, "false")
    requires !StartsWith([c] + s, 0, "null")
    ensures Lex([c] + s) == Threw(SyntaxError)
  {
    assert ([c] + s)[0] == c;
  }

  lemma StartsWithAppend(a: string, b: string, i: nat, w: string)
    requires StartsWith(a, i, w)
    ensures StartsWith(a + b, i, w)
  {
    assert (a + b)[i..i + |w|] == a[i..i + |w|];
  }

  lemma StartsWithFirst(s: string, i: nat, w: string)
    requires StartsWith(s, i, w) && w != []
    ensures s[i] == w[0]
  {
    assert s[i..i + |w|][0] == s[i];
  }

  /** A step that emits looks no further than its new cursor. */
  lemma ScanAtAppend(a: string, b: string, i: nat)
    requires i < |a| && ScanAt(a, i).Emit?
    ensures ScanAt(a + b, i) == ScanAt(a, i)
  {
    var t := a + b;
    assert forall j :: 0 <= j < |a| ==> t[j] == a[j];
    if IsWhitespace(a[i]) || IsPunctuation(a[i]) {
    } else if a[i] == '"' {
      var close := QuoteFrom(a, i + 1);
      QuoteFromSkips(a, i + 1);
      QuoteFromIs(t, i + 1, close);
      assert t[i + 1..close] == a[i + 1..close];
    } else if IsNumberStart(a[i]) {
      var end := NumberEnd(a, i);
      NumberEndSkips(a, i);
      NumberEndIs(t, i, end);
      assert t[i..end] == a[i..end];
    } else if StartsWith(a, i, "true") {
      StartsWithAppend(a, b, i, "true");
    } else if StartsWith(a, i, "false") {
      StartsWithAppend(a, b, i, "false");
      StartsWithFirst(a, i, "false");
      if StartsWith(t, i, "true") {
        StartsWithFirst(t, i, "true");
        assert false;
      }
    } else {
      StartsWithAppend(a, b, i, "null");
      StartsWithFirst(a, i, "null");
      if StartsWith(t, i, "true") {
        StartsWithFirst(t, i, "true");
        assert false;
      }
      if StartsWith(t, i, "false") {
        StartsWithFirst(t, i, "false");
        assert false;
      }
    }
  }

  lemma {:induction false} LexFromAppend(a: string, b: string, i: nat)
    requires i <= |a| && LexFrom(a, i).Done?
    ensures LexFrom(a + b, i) == Prepend(LexFrom(a, i).value, LexFrom(a + b, |a|))
    decreases |a| - i
  {
    if i == |a| {
      PrependNothing(LexFrom(a + b, |a|));
    } else {
      ScanAtAppend(a, b, i);
      var st := ScanAt(a, i);
      LexFromAppend(a, b, st.next);
      PrependAssoc(st.tokens, LexFrom(a, st.next).value, LexFrom(a + b, |a|));
    }
  }

  /** Scanning stops at the end of a fully scanned prefix: nothing in the
      prefix looks past its end, so the tokens of the whole text are the
      prefix's tokens followed by those of the rest. */
  lemma LexAppend(a: string, b: string)
    requires Lex(a).Done?
    ensures Lex(a + b) == Prepend(Lex(a).value, Lex(b))
  {
    LexFromAppend(a, b, 0);
    LexAfter(a, b);
  }

  /** A token that can be written back as text and read again: one of the
      five types, and for a number a lexeme as the tokenizer cuts it. */
  predicate IsSpellable(t: Token) {
    IsLexical(t) && (t.kind == NumberKind ==> IsNumberLexeme(t.value.lexeme))
  }

  /** The text of a token, as it appears in JSON text. */
  function Spell(t: Token): string
    requires IsLexical(t)
  {
    match t.kind
    case "punctuation" => t.value.text
    case "string" => "\"" + t.value.text + "\""
    case "number" => t.value.lexeme
    case "boolean" => if t.value.b then "true" else "false"
    case _ => "null"
  }

  /** Writes the tokens out, each followed by one space. */
  function Render(ts: seq<Token>): string
    requires forall t :: t in ts ==> IsSpellable(t)
  {
    if ts == [] then "" else
      assert ts[0] in ts; assert IsSpellable(ts[0]); assert IsLexical(ts[0]);
      Spell(ts[0]) + " " + Render(ts[1..])
  }

  /** A spelled token followed by a blank reads back as that token. */
  lemma LexSpelled(t: Token, rest: string)
    requires IsSpellable(t)
    ensures Lex(Spell(t) + " " + rest) == Prepend([t], Lex(rest))
  {
    LexSkipsWhitespace(" ", rest);
    var tail := " " + rest;
    assert Spell(t) + " " + rest == Spell(t) + tail;
    match t.kind
    case "punctuation" =>
      assert Spell(t) == [t.value.text[0]];
      LexPunctuation(t.value.text[0], tail);
    case "string" =>
      LexString(t.value.text, tail);
    case "number" =>
      LexNumber(t.value.lexeme, tail);
    case "boolean" =>
      if t.value.b { LexTrue(tail); } else { LexFalse(tail); }
    case "null" =>
      LexNull(tail);
  }

  /** The tokenizer reads back exactly the tokens that were written out,
      whatever their kinds. */
  lemma {:induction false} LexRender(ts: seq<Token>)
    requires forall t :: t in ts ==> IsSpellable(t)
    ensures Lex(Render(ts)) == Done(ts)
  {
    if ts != [] {
      assert ts[0] in ts;
      var rest := Render(ts[1..]);
      assert Render(ts) == Spell(ts[0]) + " " + rest;
      LexRender(ts[1..]);
      LexSpelled(ts[0], rest);
      assert [ts[0]] + ts[1..] == ts;
    }
  }
}
