/** Text normalisation used before any frequency lookup: deleting
    punctuation, splitting on whitespace, lowercasing, and joining the
    surviving words back into one string. */
module Text {

  /** The 32 ASCII punctuation characters of Python's `string.punctuation`. */
  const Punctuation: string := "!\"#$%&'()*+,-./:;<=>?@[\\]^_`{|}~"

  /** Membership in `Punctuation`, written as its four ASCII ranges. */
  predicate IsPunctuation(c: char) {
    ('!' <= c <= '/') || (':' <= c <= '@') || ('[' <= c <= '`') || ('{' <= c <= '~')
  }

  lemma PunctuationRanges(c: char)
    ensures c in Punctuation <==> IsPunctuation(c)
  {
  }

  predicate IsAsciiAlphanumeric(c: char) {
    ('0' <= c <= '9') || ('A' <= c <= 'Z') || ('a' <= c <= 'z')
  }

  /** The punctuation set is exactly the printable, non-space ASCII
      characters that are neither letters nor digits. */
  lemma PunctuationIsAsciiSymbols(c: char)
    ensures IsPunctuation(c) <==> '!' <= c <= '~' && !IsAsciiAlphanumeric(c)
  {
  }

  predicate NoPunctuation(s: string) {
    forall i :: 0 <= i < |s| ==> !IsPunctuation(s[i])
  }

  /** `text.translate(str.maketrans('', '', string.punctuation))`:
      every punctuation character is deleted, everything else is kept. */
  function RemovePunctuation(s: string): (r: string)
    ensures NoPunctuation(r)
    ensures |r| <= |s|
  {
    if s == [] then [] else (if IsPunctuation(s[0]) then [] else [s[0]]) + RemovePunctuation(s[1..])
  }

  /** Every character outside the punctuation set survives exactly as
      often as it occurs, and no punctuation character survives. */
  lemma {:induction false} RemovePunctuationCounts(s: string)
    ensures forall c :: !IsPunctuation(c) ==> multiset(RemovePunctuation(s))[c] == multiset(s)[c]
    ensures forall c :: IsPunctuation(c) ==> multiset(RemovePunctuation(s))[c] == 0
  {
    if s != [] {
      RemovePunctuationCounts(s[1..]);
      assert s == [s[0]] + s[1..];
    }
  }

  /** Deletion works character by character, so it keeps the order of
      what remains: removing from a concatenation is concatenating the
      removals. */
  lemma {:induction false} RemovePunctuationAppend(a: string, b: string)
    ensures RemovePunctuation(a + b) == RemovePunctuation(a) + RemovePunctuation(b)
  {
    if a != [] {
      var head := if IsPunctuation(a[0]) then [] else [a[0]];
      calc {
        RemovePunctuation(a + b);
        { assert (a + b)[0] == a[0] && (a + b)[1..] == a[1..] + b; }
        head + RemovePunctuation(a[1..] + b);
        { RemovePunctuationAppend(a[1..], b); }
        head + (RemovePunctuation(a[1..]) + RemovePunctuation(b));
        (head + RemovePunctuation(a[1..])) + RemovePunctuation(b);
      }
    } else {
      assert a + b == b;
    }
  }

  /** Text that holds no punctuation is left unchanged. */
  lemma {:induction false} RemovePunctuationKeeps(s: string)
    requires NoPunctuation(s)
    ensures RemovePunctuation(s) == s
  {
    if s != [] {
      RemovePunctuationKeeps(s[1..]);
    }
  }

  /** Stripping punctuation a second time changes nothing. */
  lemma RemovePunctuationIdempotent(s: string)
    ensures RemovePunctuation(RemovePunctuation(s)) == RemovePunctuation(s)
  {
    RemovePunctuationKeeps(RemovePunctuation(s));
  }

  /** The characters Python's `str.isspace` accepts, which are the
      separators of `str.split()` with no argument. */
  predicate IsSpace(c: char) {
    ('\t' <= c <= '\r') || ('\U{1C}' <= c <= ' ') || c == '\U{85}' || c == '\U{A0}'
    || c == '\U{1680}' || ('\U{2000}' <= c <= '\U{200A}') || c == '\U{2028}'
    || c == '\U{2029}' || c == '\U{202F}' || c == '\U{205F}' || c == '\U{3000}'
  }

  predicate NoSpace(s: string) {
    forall i :: 0 <= i < |s| ==> !IsSpace(s[i])
  }

  /** The length of the longest whitespace-free prefix of `s`. */
  function TokenLength(s: string): (n: nat)
    ensures n <= |s|
    ensures NoSpace(s[..n])
    ensures n < |s| ==> IsSpace(s[n])
  {
    if s == [] || IsSpace(s[0]) then 0 else 1 + TokenLength(s[1..])
  }

  /** `str.split()`: the maximal runs of non-whitespace characters, in
      order; leading, trailing and repeated whitespace give no empty token. */
  function Split(s: string): (r: seq<string>)
    ensures forall i :: 0 <= i < |r| ==> r[i] != [] && NoSpace(r[i])
    decreases |s|
  {
    if s == [] then []
    else if IsSpace(s[0]) then Split(s[1..])
    else
      var n := TokenLength(s);
      [s[..n]] + Split(s[n..])
  }

  /** `s` with its whitespace deleted. */
  function WithoutSpace(s: string): string {
    if s == [] then [] else (if IsSpace(s[0]) then [] else [s[0]]) + WithoutSpace(s[1..])
  }

  function Concat(ts: seq<string>): string {
    if ts == [] then [] else ts[0] + Concat(ts[1..])
  }

  lemma {:induction false} WithoutSpaceAppend(a: string, b: string)
    ensures WithoutSpace(a + b) == WithoutSpace(a) + WithoutSpace(b)
  {
    if a != [] {
      var head := if IsSpace(a[0]) then [] else [a[0]];
      calc {
        WithoutSpace(a + b);
        { assert (a + b)[0] == a[0] && (a + b)[1..] == a[1..] + b; }
        head + WithoutSpace(a[1..] + b);
        { WithoutSpaceAppend(a[1..], b); }
        head + (WithoutSpace(a[1..]) + WithoutSpace(b));
        (head + WithoutSpace(a[1..])) + WithoutSpace(b);
      }
    } else {
      assert a + b == b;
    }
  }

  lemma {:induction false} WithoutSpaceKeeps(s: string)
    requires NoSpace(s)
    ensures WithoutSpace(s) == s
  {
    if s != [] {
      WithoutSpaceKeeps(s[1..]);
    }
  }

  /** Splitting loses only whitespace: the tokens, read one after the
      other, spell out every other character of the text in order. */
  lemma {:induction false} SplitKeepsText(s: string)
    ensures Concat(Split(s)) == WithoutSpace(s)
    decreases |s|
  {
    if s == [] {
    } else if IsSpace(s[0]) {
      SplitKeepsText(s[1..]);
    } else {
      var n := TokenLength(s);
      assert s == s[..n] + s[n..];
      WithoutSpaceAppend(s[..n], s[n..]);
      WithoutSpaceKeeps(s[..n]);
      SplitKeepsText(s[n..]);
      assert Split(s)[1..] == Split(s[n..]);
    }
  }

  /** Tokens are pieces of the text, so text without punctuation yields
      tokens without punctuation. */
  lemma {:induction false} SplitNoPunctuation(s: string)
    requires NoPunctuation(s)
    ensures forall i :: 0 <= i < |Split(s)| ==> NoPunctuation(Split(s)[i])
    decreases |s|
  {
    if s == [] {
    } else if IsSpace(s[0]) {
      SplitNoPunctuation(s[1..]);
    } else {
      SplitNoPunctuation(s[TokenLength(s)..]);
    }
  }

  /** Text made only of whitespace has no tokens. */
  lemma {:induction false} SplitOfSpaces(g: string)
    requires forall i :: 0 <= i < |g| ==> IsSpace(g[i])
    ensures Split(g) == []
  {
    if g != [] {
      SplitOfSpaces(g[1..]);
    }
  }

  /** A non-empty whitespace-free word is a single token. */
  lemma SplitOfWord(w: string)
    requires w != [] && NoSpace(w)
    ensures Split(w) == [w]
  {
    TokenLengthOfWord(w, []);
    assert w + [] == w;
    assert w[..|w|] == w && w[|w|..] == [];
  }

  /** A token cut short by whitespace inside `a` ends at the same place
      when anything is appended. */
  lemma {:induction false} TokenLengthAppend(a: string, b: string)
    requires TokenLength(a) < |a|
    ensures TokenLength(a + b) == TokenLength(a)
  {
    if !IsSpace(a[0]) {
      assert (a + b)[1..] == a[1..] + b;
      TokenLengthAppend(a[1..], b);
    }
  }

  /** Where whitespace separates two texts (or one is empty), the tokens
      of their concatenation are the tokens of each, in order: no token
      spans the boundary. */
  lemma {:induction false} SplitAppend(a: string, b: string)
    requires a == [] || b == [] || IsSpace(a[|a| - 1]) || IsSpace(b[0])
    ensures Split(a + b) == Split(a) + Split(b)
    decreases |a|
  {
    if a == [] {
      assert a + b == b;
    } else if b == [] {
      assert a + b == a;
    } else if IsSpace(a[0]) {
      assert (a + b)[0] == a[0] && (a + b)[1..] == a[1..] + b;
      SplitAppend(a[1..], b);
    } else {
      var m := TokenLength(a);
      if m < |a| {
        TokenLengthAppend(a, b);
        assert (a + b)[..m] == a[..m];
        assert (a + b)[m..] == a[m..] + b;
        SplitAppend(a[m..], b);
      } else {
        assert a[..m] == a;
        TokenLengthOfWord(a, b);
        assert (a + b)[..m] == a && (a + b)[m..] == b;
        assert a[m..] == [];
      }
    }
  }

  /** `str.split()` separates at every run of whitespace, however long:
      a non-empty whitespace gap between two texts only separates their
      tokens. */
  lemma SplitAtGap(a: string, g: string, b: string)
    requires g != [] && forall i :: 0 <= i < |g| ==> IsSpace(g[i])
    ensures Split(a + g + b) == Split(a) + Split(b)
  {
    SplitAppend(g, b);
    SplitOfSpaces(g);
    assert Split(g + b) == Split(b);
    assert a + g + b == a + (g + b);
    SplitAppend(a, g + b);
  }

  /** A whitespace-free word followed by text that starts with whitespace
      (or nothing) is one whole token. */
  lemma {:induction false} TokenLengthOfWord(w: string, rest: string)
    requires NoSpace(w)
    requires rest == [] || IsSpace(rest[0])
    ensures TokenLength(w + rest) == |w|
  {
    if w != [] {
      assert (w + rest)[1..] == w[1..] + rest;
      TokenLengthOfWord(w[1..], rest);
    }
  }

  /** ASCII lowercasing of one character; every other character is kept. */
  function LowerChar(c: char): char {
    if 'A' <= c <= 'Z' then (c as int + 32) as char else c
  }

  predicate NoUpper(s: string) {
    forall i :: 0 <= i < |s| ==> !('A' <= s[i] <= 'Z')
  }

  /** `str.lower()`, restricted to ASCII letters. */
  function Lower(w: string): (r: string)
    ensures |r| == |w|
    ensures NoUpper(r)
    ensures NoUpper(w) ==> r == w
    ensures forall i :: 0 <= i < |w| ==>
      ('A' <= w[i] <= 'Z' ==> r[i] as int == w[i] as int + 32) && (!('A' <= w[i] <= 'Z') ==> r[i] == w[i])
  {
    seq(|w|, i requires 0 <= i < |w| => LowerChar(w[i]))
  }

  lemma LowerIdempotent(w: string)
    ensures Lower(Lower(w)) == Lower(w)
  {
  }

  /** Lowercasing never turns a character into, or out of, whitespace or
      punctuation. */
  lemma LowerKeepsClasses(w: string)
    ensures NoSpace(Lower(w)) <==> NoSpace(w)
    ensures NoPunctuation(Lower(w)) <==> NoPunctuation(w)
  {
    assert forall i :: 0 <= i < |w| ==> Lower(w)[i] == LowerChar(w[i]);
  }

  /** The total length of a list of strings. */
  function TotalLength(ws: seq<string>): nat {
    if ws == [] then 0 else |ws[0]| + TotalLength(ws[1..])
  }

  /** `sep.join(ws)`: the words in order with one separator between each
      neighbouring pair, and none before the first or after the last. */
  function Join(ws: seq<string>, sep: string): (r: string)
    ensures ws == [] ==> r == []
    ensures ws != [] ==> |r| == TotalLength(ws) + (|ws| - 1) * |sep|
    ensures ws != [] ==> r == ws[0] + Concat(seq(|ws| - 1, i requires 0 <= i < |ws| - 1 => sep + ws[i + 1]))
  {
    if ws == [] then []
    else if |ws| == 1 then
      assert ws[0] + Concat([]) == ws[0];
      ws[0]
    else
      var pieces := seq(|ws| - 1, i requires 0 <= i < |ws| - 1 => sep + ws[i + 1]);
      var tail := ws[1..];
      assert pieces[1..] == seq(|tail| - 1, i requires 0 <= i < |tail| - 1 => sep + tail[i + 1]);
      assert ws[0] + sep + Join(tail, sep) == ws[0] + (sep + tail[0] + Concat(pieces[1..]));
      ws[0] + sep + Join(tail, sep)
  }

  /** A word of the final list: non-empty, without whitespace or
      punctuation, and already lowercase. */
  predicate IsWord(w: string) {
    w != [] && NoSpace(w) && NoPunctuation(w) && NoUpper(w)
  }

  /** Splitting words joined by single spaces gives the words back. */
  lemma {:induction false} SplitJoinSpaces(ws: seq<string>)
    requires forall i :: 0 <= i < |ws| ==> ws[i] != [] && NoSpace(ws[i])
    ensures Split(Join(ws, " ")) == ws
    decreases |ws|
  {
    if ws == [] {
    } else if |ws| == 1 {
      var w := ws[0];
      TokenLengthOfWord(w, []);
      assert w + [] == w;
      assert w[|w|..] == [];
    } else {
      var w, rest := ws[0], Join(ws[1..], " ");
      var s := w + " " + rest;
      assert s == w + (" " + rest);
      TokenLengthOfWord(w, " " + rest);
      assert s[..|w|] == w;
      assert s[|w|..] == " " + rest;
      assert (" " + rest)[1..] == rest;
      SplitJoinSpaces(ws[1..]);
    }
  }

  /** Removing punctuation from words joined by ", " leaves them joined by
      single spaces. */
  lemma {:induction false} RemovePunctuationOfCommaJoin(ws: seq<string>)
    requires forall i :: 0 <= i < |ws| ==> NoPunctuation(ws[i])
    ensures RemovePunctuation(Join(ws, ", ")) == Join(ws, " ")
    decreases |ws|
  {
    if ws == [] {
    } else if |ws| == 1 {
      RemovePunctuationKeeps(ws[0]);
    } else {
      var w, rest := ws[0], Join(ws[1..], ", ");
      assert Join(ws, ", ") == w + (", " + rest);
      RemovePunctuationAppend(w, ", " + rest);
      RemovePunctuationKeeps(w);
      assert (", " + rest)[1..] == " " + rest;
      assert IsPunctuation(',');
      assert (" " + rest)[1..] == rest;
      assert !IsPunctuation(' ');
      RemovePunctuationOfCommaJoin(ws[1..]);
    }
  }

  /** The ", "-joined word list can be read back: stripping punctuation
      and splitting on whitespace recovers exactly the words, in order. */
  lemma CommaJoinRoundTrip(ws: seq<string>)
    requires forall i :: 0 <= i < |ws| ==> IsWord(ws[i])
    ensures Split(RemovePunctuation(Join(ws, ", "))) == ws
  {
    RemovePunctuationOfCommaJoin(ws);
    SplitJoinSpaces(ws);
  }
}
