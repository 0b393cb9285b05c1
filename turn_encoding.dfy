/** The text form of the pending list (`salta_turno`).

    The store keeps the pending commissions as one string: an out-of-turn
    booking appends the commission and a space, and an on-turn booking reads
    the string back with `strip().split()`, removes entries from the list of
    words and writes `' '.join(words) + ' '`. This module models that string
    handling and proves that it agrees with the list of numbers that module
    Turn works on. */
module TurnEncoding {
  import opened Turn

  /** The characters `str.split()` and `str.strip()` treat as blanks here
      (the ASCII whitespace characters). */
  predicate IsSpace(ch: char) {
    ch == ' ' || ch == '\t' || ch == '\n' || ch == '\r' || ch == '\U{B}' || ch == '\U{C}'
  }

  /** A non-empty word without blanks. */
  predicate IsToken(w: string) {
    w != [] && forall i :: 0 <= i < |w| ==> !IsSpace(w[i])
  }

  /** The string is empty or ends in a blank, so that text appended to it
      starts a new word. */
  predicate EndsOpen(s: string) {
    s == [] || IsSpace(s[|s| - 1])
  }

  /** The longest prefix of s without blanks. */
  function Word(s: string): (w: string)
    ensures |w| <= |s| && w == s[..|w|]
    ensures forall i :: 0 <= i < |w| ==> !IsSpace(w[i])
    ensures |w| < |s| ==> IsSpace(s[|w|])
    ensures s != [] && !IsSpace(s[0]) ==> |w| >= 1
  {
    if s == [] || IsSpace(s[0]) then [] else [s[0]] + Word(s[1..])
  }

  /** `s.split()`: the maximal runs of non-blank characters, in order. */
  function Split(s: string): seq<string>
    decreases |s|
  {
    if s == [] then []
    else if IsSpace(s[0]) then Split(s[1..])
    else
      var w := Word(s);
      [w] + Split(s[|w|..])
  }

  function StripLeft(s: string): string {
    if s != [] && IsSpace(s[0]) then StripLeft(s[1..]) else s
  }

  function StripRight(s: string): string {
    if s != [] && IsSpace(s[|s| - 1]) then StripRight(s[..|s| - 1]) else s
  }

  /** `s.strip()`. */
  function Strip(s: string): string {
    StripRight(StripLeft(s))
  }

  /** `' '.join(ws)`. */
  function Join(ws: seq<string>): string {
    if ws == [] then ""
    else if |ws| == 1 then ws[0]
    else ws[0] + " " + Join(ws[1..])
  }

  /** What the on-turn branch writes back: `' '.join(ws) + ' '`. */
  function Serialize(ws: seq<string>): string {
    Join(ws) + " "
  }

  function Digit(n: nat): char
    requires n < 10
  {
    "0123456789"[n]
  }

  /** `str(n)`: the decimal digits of n. */
  function Show(n: nat): (r: string)
    ensures IsToken(r)
    ensures |r| == 1 <==> n < 10
  {
    if n < 10 then [Digit(n)] else Show(n / 10) + [Digit(n % 10)]
  }

  /** The words of a list of numbers, one `str` each. */
  function Shows(xs: seq<int>): (r: seq<string>)
    requires forall i :: 0 <= i < |xs| ==> xs[i] >= 0
    ensures |r| == |xs|
  {
    if xs == [] then [] else [Show(xs[0])] + Shows(xs[1..])
  }

  // ---------------------------------------------------------------------
  // Splitting
  // ---------------------------------------------------------------------

  /** Text after a blank does not extend the first word. */
  lemma {:induction false} WordAppend(a: string, b: string)
    requires |Word(a)| < |a| || b == [] || IsSpace(b[0])
    ensures Word(a + b) == Word(a)
  {
    if a != [] && !IsSpace(a[0]) {
      assert (a + b)[1..] == a[1..] + b;
      WordAppend(a[1..], b);
    } else if a == [] {
      assert a + b == b;
    }
  }

  /** Splitting distributes over a concatenation whose left part ends open. */
  lemma {:induction false} SplitAppend(a: string, b: string)
    requires EndsOpen(a)
    ensures Split(a + b) == Split(a) + Split(b)
    decreases |a|
  {
    if a == [] {
      assert a + b == b;
    } else if IsSpace(a[0]) {
      assert (a + b)[1..] == a[1..] + b;
      SplitAppend(a[1..], b);
    } else {
      var w := Word(a);
      WordAppend(a, b);
      assert (a + b)[|w|..] == a[|w|..] + b;
      SplitAppend(a[|w|..], b);
    }
  }

  /** A trailing blank adds no word. */
  lemma {:induction false} SplitTrailingSpace(a: string, sp: char)
    requires IsSpace(sp)
    ensures Split(a + [sp]) == Split(a)
    decreases |a|
  {
    if a == [] {
      assert Split([sp]) == Split([]);
    } else if IsSpace(a[0]) {
      assert (a + [sp])[1..] == a[1..] + [sp];
      SplitTrailingSpace(a[1..], sp);
    } else {
      var w := Word(a);
      WordAppend(a, [sp]);
      assert (a + [sp])[|w|..] == a[|w|..] + [sp];
      SplitTrailingSpace(a[|w|..], sp);
    }
  }

  lemma {:induction false} SplitStripLeft(s: string)
    ensures Split(StripLeft(s)) == Split(s)
  {
    if s != [] && IsSpace(s[0]) {
      SplitStripLeft(s[1..]);
    }
  }

  lemma {:induction false} SplitStripRight(s: string)
    ensures Split(StripRight(s)) == Split(s)
  {
    if s != [] && IsSpace(s[|s| - 1]) {
      var s' := s[..|s| - 1];
      assert s == s' + [s[|s| - 1]];
      SplitTrailingSpace(s', s[|s| - 1]);
      SplitStripRight(s');
    }
  }

  /** `strip()` before `split()` changes nothing. */
  lemma SplitStrip(s: string)
    ensures Split(Strip(s)) == Split(s)
  {
    SplitStripLeft(s);
    SplitStripRight(StripLeft(s));
  }

  /** A word followed by a blank splits into that word. */
  lemma SplitToken(w: string)
    requires IsToken(w)
    ensures Split(w + " ") == [w]
  {
    var s := w + " ";
    WordAppend(w, " ");
    assert Word(w) == w by {
      WordOfToken(w);
    }
    assert s[|w|..] == " ";
    assert Split(" ") == Split("");
  }

  lemma {:induction false} WordOfToken(w: string)
    requires forall i :: 0 <= i < |w| ==> !IsSpace(w[i])
    ensures Word(w) == w
  {
    if w != [] {
      WordOfToken(w[1..]);
    }
  }

  /** Reading back what the on-turn branch writes gives the same words. */
  lemma {:induction false} SplitSerialize(ws: seq<string>)
    requires forall i :: 0 <= i < |ws| ==> IsToken(ws[i])
    ensures Split(Serialize(ws)) == ws
    ensures EndsOpen(Serialize(ws))
  {
    var s := Serialize(ws);
    assert s[|s| - 1] == ' ';
    if ws == [] {
      assert Split(" ") == Split("");
    } else if |ws| == 1 {
      assert s == ws[0] + " ";
      SplitToken(ws[0]);
    } else {
      var head := ws[0] + " ";
      var rest := ws[1..];
      SerializeCons(ws);
      SplitAppend(head, Serialize(rest));
      SplitToken(ws[0]);
      assert forall i :: 0 <= i < |rest| ==> rest[i] == ws[i + 1];
      SplitSerialize(rest);
      assert Split(s) == [ws[0]] + rest;
      assert ws == [ws[0]] + rest;
    }
  }

  lemma SerializeCons(ws: seq<string>)
    requires |ws| >= 2
    ensures Serialize(ws) == (ws[0] + " ") + Serialize(ws[1..])
  {
    assert Join(ws) == ws[0] + " " + Join(ws[1..]);
  }

  /** The out-of-turn append `salta_turno += comision + ' '` adds exactly one
      word to what `strip().split()` reads back, and keeps the string open. */
  lemma AppendWord(s: string, w: string)
    requires EndsOpen(s) && IsToken(w)
    ensures Split(Strip(s + w + " ")) == Split(Strip(s)) + [w]
    ensures EndsOpen(s + w + " ")
  {
    SplitStrip(s + w + " ");
    SplitStrip(s);
    assert s + w + " " == s + (w + " ");
    SplitAppend(s, w + " ");
    SplitToken(w);
  }

  // ---------------------------------------------------------------------
  // Words and numbers
  // ---------------------------------------------------------------------

  predicate Digits(xs: seq<int>) {
    forall i :: 0 <= i < |xs| ==> 0 <= xs[i] < 10
  }

  /** On single digits `str` is one-to-one, and no longer number shares a word with one. */
  lemma ShowDigitInjective(a: nat, b: nat)
    requires a < 10
    ensures Show(a) == Show(b) <==> a == b
  {
  }

  lemma {:induction false} ShowsTokens(xs: seq<int>)
    requires Digits(xs)
    ensures forall w :: w in Shows(xs) ==> IsToken(w)
  {
    if xs != [] {
      ShowsTokens(xs[1..]);
    }
  }

  /** Looking up `str(t)` in the words is looking up t in the numbers. */
  lemma {:induction false} ShowsMember(xs: seq<int>, t: nat)
    requires Digits(xs)
    ensures Show(t) in Shows(xs) <==> t in xs
  {
    if xs != [] {
      ShowsMember(xs[1..], t);
      ShowDigitInjective(xs[0], t);
      assert xs == [xs[0]] + xs[1..];
    }
  }

  lemma DigitsOfRemove(xs: seq<int>, t: int)
    requires Digits(xs) && t in xs
    ensures Digits(RemoveFirst(xs, t))
  {
    var r := RemoveFirst(xs, t);
    RemoveFirstSubset(xs, t);
    forall i | 0 <= i < |r|
      ensures 0 <= r[i] < 10
    {
      assert r[i] in xs;
    }
  }

  /** Removing the word `str(t)` is removing the number t. */
  lemma {:induction false} ShowsRemove(xs: seq<int>, t: nat)
    requires Digits(xs) && t in xs
    ensures Show(t) in Shows(xs)
    ensures Digits(RemoveFirst(xs, t))
    ensures RemoveFirst(Shows(xs), Show(t)) == Shows(RemoveFirst(xs, t))
  {
    ShowsMember(xs, t);
    DigitsOfRemove(xs, t);
    ShowDigitInjective(xs[0], t);
    if xs[0] != t {
      assert xs == [xs[0]] + xs[1..];
      ShowsRemove(xs[1..], t);
    }
  }

  /** The skip loop as the source runs it, on words: `while str(t) in array_saltos`. */
  function SkipWords(t: nat, words: seq<string>): (nat, seq<string>)
    decreases |words|
  {
    if Show(t) in words then SkipWords(t + 1, RemoveFirst(words, Show(t))) else (t, words)
  }

  /** The loop on words stops at the same turn as the loop on numbers and
      leaves the words of what the loop on numbers leaves. */
  lemma {:induction false} SkipWordsAgree(t: nat, xs: seq<int>)
    requires Digits(xs)
    ensures SkipWords(t, Shows(xs)).0 == SkipFrom(t, xs).0
    ensures Digits(SkipFrom(t, xs).1)
    ensures SkipWords(t, Shows(xs)).1 == Shows(SkipFrom(t, xs).1)
    decreases |xs|
  {
    ShowsMember(xs, t);
    if t in xs {
      var xs' := RemoveFirst(xs, t);
      ShowsRemove(xs, t);
      SkipWordsAgree(t + 1, xs');
      assert SkipWords(t, Shows(xs)) == SkipWords(t + 1, Shows(xs'));
      assert SkipFrom(t, xs) == SkipFrom(t + 1, xs');
    } else {
      assert SkipWords(t, Shows(xs)) == (t, Shows(xs));
    }
  }

  /** Lines 77-89 of the booking handler on the stored strings: the turn
      `turno` and the pending text `salta_turno`, for a booking of c. */
  function RecordBookingText(turn: nat, pendingText: string, c: nat): (nat, string) {
    if c != turn then (turn, pendingText + Show(c) + " ")
    else
      var (t', words) := SkipWords(Next(turn), Split(Strip(pendingText)));
      (t', Serialize(words))
  }

  /** The text form and the list form of the turn tracker agree: if the
      stored text reads back as the pending list, then after any booking it
      reads back as the new pending list, the turns are equal, and the text
      still ends open. */
  lemma RecordBookingTextAgrees(turn: nat, pendingText: string, pending: seq<int>, c: nat)
    requires Digits(pending) && c < 10
    requires EndsOpen(pendingText)
    requires Split(Strip(pendingText)) == Shows(pending)
    ensures var (t, text) := RecordBookingText(turn, pendingText, c);
      var (t', pending') := RecordBooking(turn, pending, c);
      && t == t'
      && EndsOpen(text)
      && Digits(pending')
      && Split(Strip(text)) == Shows(pending')
  {
    if c != turn {
      AppendWord(pendingText, Show(c));
      ShowsAppend(pending, c);
    } else {
      var t := Next(turn);
      SkipWordsAgree(t, pending);
      var rest := SkipFrom(t, pending).1;
      ShowsTokens(rest);
      SplitSerialize(Shows(rest));
      SplitStrip(Serialize(Shows(rest)));
    }
  }

  lemma {:induction false} ShowsAppend(xs: seq<int>, c: nat)
    requires Digits(xs)
    ensures Shows(xs + [c]) == Shows(xs) + [Show(c)]
  {
    if xs != [] {
      assert (xs + [c])[1..] == xs[1..] + [c];
      ShowsAppend(xs[1..], c);
    } else {
      assert xs + [c] == [c];
    }
  }
}
