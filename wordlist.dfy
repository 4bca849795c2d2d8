/** The list of possibly unfamiliar words of a text: the distinct
    lowercase words of the text whose corpus frequency is at most that of
    the last word of the learner's known band. */
module WordList {
  import opened Wrappers
  import opened Text
  import opened Threshold

  /** The word-frequency corpus, passed in rather than reached as a global.
      `topN(lang, n)` is the "best" list of the language's most frequent
      words, most frequent first; `frequency(word, lang)` is a word's
      frequency. Nothing is assumed about either beyond being functions. */
  datatype Corpus = Corpus(topN: (string, real) -> seq<string>, frequency: (string, string) -> real)

  /** What `generate_word_list` does: return a string, or raise the
      `IndexError` of indexing an empty ranked list with -1. */
  datatype Outcome = Returned(value: string) | RaisedIndexError

  predicate NoDuplicates(ws: seq<string>) {
    forall i, j :: 0 <= i < j < |ws| ==> ws[i] != ws[j]
  }

  /** `[word.lower() for word in words]`. */
  function LowerAll(ts: seq<string>): (r: seq<string>)
    ensures |r| == |ts|
    ensures forall i :: 0 <= i < |ts| ==> r[i] == Lower(ts[i])
    ensures forall i :: 0 <= i < |ts| ==> NoUpper(r[i]) && (NoUpper(ts[i]) ==> r[i] == ts[i])
  {
    seq(|ts|, i requires 0 <= i < |ts| => Lower(ts[i]))
  }

  /** `set(words)`, enumerated in order of first occurrence. */
  function Dedup(ws: seq<string>): (r: seq<string>)
    ensures NoDuplicates(r)
    ensures forall w :: w in r <==> w in ws
  {
    if ws == [] then []
    else
      var init, last := Dedup(ws[..|ws| - 1]), ws[|ws| - 1];
      assert ws == ws[..|ws| - 1] + [last];
      if last in init then init else init + [last]
  }

  /** A sequence without repetitions is its own set. */
  lemma {:induction false} DedupKeeps(ws: seq<string>)
    requires NoDuplicates(ws)
    ensures Dedup(ws) == ws
  {
    if ws != [] {
      var init := ws[..|ws| - 1];
      DedupKeeps(init);
      assert ws[|ws| - 1] !in init;
      assert init + [ws[|ws| - 1]] == ws;
    }
  }

  /** The word set of a text: its whitespace tokens after punctuation is
      removed, lowercased, each once. */
  function TextWords(text: string): (r: seq<string>)
    ensures NoDuplicates(r)
    ensures forall w :: w in r <==> exists t :: t in Split(RemovePunctuation(text)) && Lower(t) == w
    ensures forall w :: w in r ==> IsWord(w)
  {
    var tokens := Split(RemovePunctuation(text));
    var lowered := LowerAll(tokens);
    SplitNoPunctuation(RemovePunctuation(text));
    forall w | w in lowered ensures IsWord(w) && exists t :: t in tokens && Lower(t) == w {
      var i :| 0 <= i < |lowered| && lowered[i] == w;
      assert tokens[i] in tokens;
      LowerKeepsClasses(tokens[i]);
    }
    forall t | t in tokens ensures Lower(t) in lowered {
      var i :| 0 <= i < |tokens| && tokens[i] == t;
      assert lowered[i] == Lower(t);
    }
    Dedup(lowered)
  }

  /** `[word for word in word_set if word_frequency(word, lang) <= min_freq]`. */
  function KeepRare(corpus: Corpus, lang: string, ws: seq<string>, minFreq: real): (r: seq<string>)
    ensures forall w :: w in r <==> w in ws && corpus.frequency(w, lang) <= minFreq
    ensures NoDuplicates(ws) ==> NoDuplicates(r)
  {
    if ws == [] then []
    else
      var rest := KeepRare(corpus, lang, ws[1..], minFreq);
      assert forall w :: w in ws <==> w == ws[0] || w in ws[1..];
      if corpus.frequency(ws[0], lang) <= minFreq then [ws[0]] + rest else rest
  }

  /** Filtering a list whose words are all rare enough keeps all of it. */
  lemma {:induction false} KeepRareKeepsRare(corpus: Corpus, lang: string, ws: seq<string>, minFreq: real)
    requires forall i :: 0 <= i < |ws| ==> corpus.frequency(ws[i], lang) <= minFreq
    ensures KeepRare(corpus, lang, ws, minFreq) == ws
  {
    if ws != [] {
      KeepRareKeepsRare(corpus, lang, ws[1..], minFreq);
    }
  }

  /** The frequency of the last word of the top-`n` list, if the list is
      not empty. */
  function Cutoff(corpus: Corpus, lang: string, n: real): (r: Option<real>)
    ensures r.None? <==> |corpus.topN(lang, n)| == 0
    ensures r.Some? ==> r.value == corpus.frequency(corpus.topN(lang, n)[|corpus.topN(lang, n)| - 1], lang)
  {
    var ranked := corpus.topN(lang, n);
    if ranked == [] then None else Some(corpus.frequency(ranked[|ranked| - 1], lang))
  }

  /** `generate_word_list(text, lang, age, native, ger_level)`. */
  function GenerateWordList(corpus: Corpus, text: string, lang: string, age: int, native: bool, gerLevel: int): (r: Outcome)
    ensures r.RaisedIndexError? <==>
      (!native || AgeInRange(lang, age)) && |corpus.topN(lang, ThresholdCalculator(lang, age, native, gerLevel).threshold)| == 0
  {
    var computed := ThresholdCalculator(lang, age, native, gerLevel);
    if computed.error.Some? then Returned(computed.error.value)
    else
      match Cutoff(corpus, lang, computed.threshold)
      case None => RaisedIndexError
      case Some(minFreq) => Returned(Join(KeepRare(corpus, lang, TextWords(text), minFreq), ", "))
  }

  /** When the calculator reports an error, its message is the result,
      verbatim, and the corpus is never consulted: any two corpora give
      the same result. */
  lemma DiagnosticIsResult(corpus: Corpus, other: Corpus, text: string, lang: string, age: int, native: bool, gerLevel: int)
    requires native && !AgeInRange(lang, age)
    ensures GenerateWordList(corpus, text, lang, age, native, gerLevel) == Returned(AgeMessage(lang))
    ensures GenerateWordList(other, text, lang, age, native, gerLevel) == GenerateWordList(corpus, text, lang, age, native, gerLevel)
  {
  }

  /** Otherwise the result string, read back as text, lists each word of
      the text once, and exactly those whose frequency is at most the
      cutoff, the frequency of the last word of the top-N list (inclusive
      at the boundary). */
  lemma ResultListsRareWords(corpus: Corpus, text: string, lang: string, age: int, native: bool, gerLevel: int)
    requires !native || AgeInRange(lang, age)
    requires Cutoff(corpus, lang, ThresholdCalculator(lang, age, native, gerLevel).threshold).Some?
    ensures var r := GenerateWordList(corpus, text, lang, age, native, gerLevel);
            var minFreq := Cutoff(corpus, lang, ThresholdCalculator(lang, age, native, gerLevel).threshold).value;
            var listed := Split(RemovePunctuation(r.value));
            r.Returned?
            && (exists ws :: r.value == Join(ws, ", ") && NoDuplicates(ws)
                  && (forall w :: w in ws <==> w in TextWords(text) && corpus.frequency(w, lang) <= minFreq))
            && NoDuplicates(listed)
            && (forall w :: w in listed <==> w in TextWords(text) && corpus.frequency(w, lang) <= minFreq)
  {
    var minFreq := Cutoff(corpus, lang, ThresholdCalculator(lang, age, native, gerLevel).threshold).value;
    var ws := KeepRare(corpus, lang, TextWords(text), minFreq);
    forall i | 0 <= i < |ws| ensures IsWord(ws[i]) {
      assert ws[i] in ws;
    }
    CommaJoinRoundTrip(ws);
    assert GenerateWordList(corpus, text, lang, age, native, gerLevel).value == Join(ws, ", ");
  }

  /** A text without words gives the empty string. */
  lemma EmptyTextGivesEmptyList(corpus: Corpus, lang: string, age: int, native: bool, gerLevel: int)
    requires !native || AgeInRange(lang, age)
    requires Cutoff(corpus, lang, ThresholdCalculator(lang, age, native, gerLevel).threshold).Some?
    ensures GenerateWordList(corpus, "", lang, age, native, gerLevel) == Returned("")
  {
  }

  /** The word set of a list already produced is that list. */
  lemma TextWordsOfList(ws: seq<string>)
    requires NoDuplicates(ws)
    requires forall i :: 0 <= i < |ws| ==> IsWord(ws[i])
    ensures TextWords(Join(ws, ", ")) == ws
  {
    CommaJoinRoundTrip(ws);
    assert LowerAll(ws) == ws;
    DedupKeeps(ws);
  }

  /** Running the computation again on its own result, with the same
      learner, gives the same result: a diagnostic comes back unchanged,
      and so does a word list. */
  lemma GenerateWordListIdempotent(corpus: Corpus, text: string, lang: string, age: int, native: bool, gerLevel: int)
    requires GenerateWordList(corpus, text, lang, age, native, gerLevel).Returned?
    ensures var s := GenerateWordList(corpus, text, lang, age, native, gerLevel).value;
            GenerateWordList(corpus, s, lang, age, native, gerLevel) == Returned(s)
  {
    if native && !AgeInRange(lang, age) {
      return;
    }
    var minFreq := Cutoff(corpus, lang, ThresholdCalculator(lang, age, native, gerLevel).threshold).value;
    var ws := KeepRare(corpus, lang, TextWords(text), minFreq);
    forall i | 0 <= i < |ws| ensures IsWord(ws[i]) && corpus.frequency(ws[i], lang) <= minFreq {
      assert ws[i] in ws;
    }
    TextWordsOfList(ws);
    KeepRareKeepsRare(corpus, lang, ws, minFreq);
  }

  /** Punctuation and case are ignored and repeats collapse:
      "Hello, hello WORLD!" has the two words "hello" and "world". */
  lemma HelloWorldWords(text: string)
    requires text == "Hello, hello WORLD!"
    ensures TextWords(text) == ["hello", "world"]
  {
    var ws := ["Hello", "hello", "WORLD"];
    HelloWorldStripped(text);
    HelloWorldSlices(text);
    SplitJoinSpaces(ws);
    HelloWorldLowered(ws);
    HelloWorldDedup(LowerAll(ws));
  }

  lemma HelloWorldStripped(text: string)
    requires text == "Hello, hello WORLD!"
    ensures RemovePunctuation(text) == text[..5] + text[6..18]
  {
    var a, b, c, d := text[..5], text[5..6], text[6..18], text[18..];
    assert text == a + (b + (c + d));
    HelloWorldPieces(text);
    RemovePunctuationKeeps(a);
    RemovePunctuationKeeps(c);
    RemovePunctuationAppend(c, d);
    assert RemovePunctuation(c + d) == c;
    RemovePunctuationAppend(b, c + d);
    assert RemovePunctuation(b + (c + d)) == c;
    RemovePunctuationAppend(a, b + (c + d));
  }

  lemma HelloWorldPieces(text: string)
    requires text == "Hello, hello WORLD!"
    ensures NoPunctuation(text[..5]) && NoPunctuation(text[6..18])
    ensures RemovePunctuation(text[5..6]) == [] && RemovePunctuation(text[18..]) == []
  {
  }

  lemma HelloWorldSlices(text: string)
    requires text == "Hello, hello WORLD!"
    ensures text[..5] + text[6..18] == Join(["Hello", "hello", "WORLD"], " ")
  {
  }

  lemma HelloWorldLowered(ws: seq<string>)
    requires ws == ["Hello", "hello", "WORLD"]
    ensures LowerAll(ws) == ["hello", "hello", "world"]
  {
    LowerHello(ws[0]);
    LowerHello(ws[1]);
    LowerWorld(ws[2]);
  }

  lemma LowerHello(w: string)
    requires w == "Hello" || w == "hello"
    ensures Lower(w) == "hello"
  {
  }

  lemma LowerWorld(w: string)
    requires w == "WORLD"
    ensures Lower(w) == "world"
  {
  }

  lemma HelloWorldDedup(ws: seq<string>)
    requires ws == ["hello", "hello", "world"]
    ensures Dedup(ws) == ["hello", "world"]
  {
    var first, both := ws[..1], ws[..2];
    assert first[..0] == [];
    assert Dedup(first) == ["hello"];
    assert both[..1] == first;
    assert Dedup(both) == ["hello"];
    assert "world" != "hello";
  }
}
