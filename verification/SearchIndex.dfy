/** Splitting texts into the grams that full-text search is indexed by. */
module SearchIndex {

  /** A text is a sequence of UTF-16 code units, which is what the program counts, cuts and compares. */
  newtype CodeUnit = code: int | 0 <= code < 0x1_0000

  type Text = seq<CodeUnit>

  const HYPHEN: CodeUnit := 0x2D

  /** The separators are the hyphen and the characters that `\s` stands for in a regular expression. */
  predicate IsSeparator(code: CodeUnit) {
    || code == HYPHEN || 9 <= code <= 13 || code == 32 || code == 0xA0 || code == 0x1680 || 0x2000 <= code <= 0x200A
    || code == 0x2028 || code == 0x2029 || code == 0x202F || code == 0x205F || code == 0x3000 || code == 0xFEFF
  }

  // ---- what the index is to hold ----

  /** The pieces between separators, the empty ones among them, as `split` returns them. */
  function Split(text: Text): (pieces: seq<Text>)
    ensures |pieces| >= 1
  {
    if text == [] then [[]]
    else
      var pieces, last := Split(text[..|text| - 1]), text[|text| - 1];
      if IsSeparator(last) then pieces + [[]]
      else pieces[..|pieces| - 1] + [pieces[|pieces| - 1] + [last]]
  }

  /** The up to three code units that end at position `k`. */
  function GramAt(word: Text, k: nat): (gram: Text)
    requires k < |word|
    ensures |gram| == if k < 2 then k + 1 else 3
    ensures gram[|gram| - 1] == word[k]
  {
    word[(if k < 2 then 0 else k - 2)..k + 1]
  }

  function Grams(word: Text): (grams: seq<Text>)
    ensures |grams| == |word|
    ensures forall k :: 0 <= k < |word| ==> grams[k] == GramAt(word, k)
  {
    seq(|word|, k requires 0 <= k < |word| => GramAt(word, k))
  }

  function GramsOfAll(words: seq<Text>): seq<Text> {
    if words == [] then [] else GramsOfAll(words[..|words| - 1]) + Grams(words[|words| - 1])
  }

  function Pieces(texts: seq<Text>): seq<Text> {
    if texts == [] then [] else Pieces(texts[..|texts| - 1]) + Split(texts[|texts| - 1])
  }

  function Index(texts: seq<Text>): seq<Text> {
    GramsOfAll(Pieces(texts))
  }

  // ---- the program ----

  method SplitText(text: Text) returns (pieces: seq<Text>)
    ensures pieces == Split(text)
  {
    pieces := [[]];
    for i := 0 to |text|
      invariant pieces == Split(text[..i])
    {
      assert text[..i + 1][..i] == text[..i];
      if IsSeparator(text[i]) {
        pieces := pieces + [[]];
      } else {
        pieces := pieces[|pieces| - 1 := pieces[|pieces| - 1] + [text[i]]];
      }
    }
    assert text[..|text|] == text;
  }

  /** The grams of one piece, pushed one after the other. */
  method PushGrams(arr: seq<Text>, it: Text) returns (r: seq<Text>)
    ensures r == arr + Grams(it)
  {
    r := arr;
    if |it| == 0 {
      return;
    }
    r := r + [it[..1]];
    if |it| > 1 {
      r := r + [it[..2]];
    }
    var i := 0;
    while i < |it| - 2
      invariant 0 <= i && (i <= |it| - 2 || i == 0)
      invariant r == arr + Grams(it)[..(if |it| > 1 then i + 2 else 1)]
    {
      r := r + [it[i..i + 3]];
      assert Grams(it)[..i + 3] == Grams(it)[..i + 2] + [it[i..i + 3]];
      i := i + 1;
    }
    assert Grams(it)[..|it|] == Grams(it);
  }

  /** The grams of one text, piece by piece. */
  method PushText(arr: seq<Text>, item: Text) returns (r: seq<Text>)
    ensures r == arr + GramsOfAll(Split(item))
  {
    var pieces := SplitText(item);
    r := arr;
    for k := 0 to |pieces|
      invariant r == arr + GramsOfAll(pieces[..k])
    {
      assert pieces[..k + 1][..k] == pieces[..k];
      r := PushGrams(r, pieces[k]);
      Associative(arr, GramsOfAll(pieces[..k]), Grams(pieces[k]));
    }
    assert pieces[..|pieces|] == pieces;
  }

  method SplitForSearchIndexes(searchTexts: seq<Text>) returns (arr: seq<Text>)
    ensures arr == Index(searchTexts)
  {
    arr := [];
    for i := 0 to |searchTexts|
      invariant arr == Index(searchTexts[..i])
    {
      arr := PushText(arr, searchTexts[i]);
      assert searchTexts[..i + 1][..i] == searchTexts[..i];
      GramsOfAllAppend(Pieces(searchTexts[..i]), Split(searchTexts[i]));
    }
    assert searchTexts[..|searchTexts|] == searchTexts;
  }

  // ---- what splitting means ----

  function Separators(text: Text): Text {
    if text == [] then []
    else Separators(text[..|text| - 1]) + if IsSeparator(text[|text| - 1]) then [text[|text| - 1]] else []
  }

  /** The pieces with the separators between them. */
  function Joined(pieces: seq<Text>, separators: Text): Text
    requires |pieces| == |separators| + 1
  {
    var n := |separators|;
    if n == 0 then pieces[0] else Joined(pieces[..n], separators[..n - 1]) + [separators[n - 1]] + pieces[n]
  }

  predicate IsWord(piece: Text) {
    forall i :: 0 <= i < |piece| ==> !IsSeparator(piece[i])
  }

  lemma {:induction false} JoinedEmptyPiece(pieces: seq<Text>, separators: Text, c: CodeUnit)
    requires |pieces| == |separators| + 1
    ensures Joined(pieces + [[]], separators + [c]) == Joined(pieces, separators) + [c]
  {
  }

  lemma {:induction false} JoinedLongerPiece(pieces: seq<Text>, separators: Text, c: CodeUnit)
    requires |pieces| == |separators| + 1
    ensures Joined(pieces[..|separators|] + [pieces[|separators|] + [c]], separators) == Joined(pieces, separators) + [c]
  {
  }

  lemma {:induction false} PiecesAreWords(text: Text)
    ensures forall piece :: piece in Split(text) ==> IsWord(piece)
    decreases |text|
  {
    if text != [] {
      var init := text[..|text| - 1];
      PiecesAreWords(init);
      assert Split(init)[|Split(init)| - 1] in Split(init);
    }
  }

  lemma {:induction false} PiecesJoin(text: Text)
    ensures |Split(text)| == |Separators(text)| + 1
    ensures Joined(Split(text), Separators(text)) == text
    decreases |text|
  {
    if text != [] {
      var init, last := text[..|text| - 1], text[|text| - 1];
      PiecesJoin(init);
      var pieces, separators := Split(init), Separators(init);
      if IsSeparator(last) {
        assert Split(text) == pieces + [[]] && Separators(text) == separators + [last];
        hide Joined, Split, Separators;
        JoinedEmptyPiece(pieces, separators, last);
      } else {
        assert Split(text) == pieces[..|separators|] + [pieces[|separators|] + [last]] && Separators(text) == separators + [];
        hide Joined, Split, Separators;
        JoinedLongerPiece(pieces, separators, last);
        assert separators + [] == separators;
      }
      assert init + [last] == text;
    }
  }

  /** The pieces hold no separator, and with the separators between them they are the text. */
  lemma {:induction false} SplitJoins(text: Text)
    ensures |Split(text)| == |Separators(text)| + 1
    ensures Joined(Split(text), Separators(text)) == text
    ensures forall piece :: piece in Split(text) ==> IsWord(piece)
  {
    PiecesAreWords(text);
    PiecesJoin(text);
  }

  // ---- one gram per code unit ----

  function Letters(text: Text): nat {
    if text == [] then 0 else Letters(text[..|text| - 1]) + if IsSeparator(text[|text| - 1]) then 0 else 1
  }

  function LettersOfAll(texts: seq<Text>): nat {
    if texts == [] then 0 else LettersOfAll(texts[..|texts| - 1]) + Letters(texts[|texts| - 1])
  }

  lemma {:induction false} GramsOfAllAppend(a: seq<Text>, b: seq<Text>)
    ensures GramsOfAll(a + b) == GramsOfAll(a) + GramsOfAll(b)
    decreases |b|
  {
    if b == [] {
      assert a + b == a;
    } else {
      var last := b[|b| - 1];
      var ab, init := a + b, b[..|b| - 1];
      assert ab[..|ab| - 1] == a + init && ab[|ab| - 1] == last;
      GramsOfAllAppend(a, init);
      assert GramsOfAll(ab) == GramsOfAll(a + init) + Grams(last) && GramsOfAll(b) == GramsOfAll(init) + Grams(last);
      hide GramsOfAll, Grams;
      Associative(GramsOfAll(a), GramsOfAll(init), Grams(last));
    }
  }

  lemma Associative<T>(a: seq<T>, b: seq<T>, c: seq<T>)
    ensures (a + b) + c == a + (b + c)
  {
  }

  lemma {:induction false} GramsOfSplit(text: Text)
    ensures |GramsOfAll(Split(text))| == Letters(text)
    decreases |text|
  {
    if text == [] {
      var piece: Text := [];
      assert [piece][..0] == [];
      assert GramsOfAll([piece]) == GramsOfAll([]) + Grams(piece);
    } else {
      var init := text[..|text| - 1];
      var pieces := Split(init);
      GramsOfSplit(init);
      if IsSeparator(text[|text| - 1]) {
        assert (pieces + [[]])[..|pieces|] == pieces;
      } else {
        var longer := Split(text);
        assert longer[..|longer| - 1] == pieces[..|pieces| - 1];
      }
    }
  }

  /** Every code unit that is no separator ends exactly one gram. */
  lemma {:induction false} OneGramPerCodeUnit(texts: seq<Text>)
    ensures |Index(texts)| == LettersOfAll(texts)
    decreases |texts|
  {
    if texts != [] {
      OneGramPerCodeUnit(texts[..|texts| - 1]);
      GramsOfSplit(texts[|texts| - 1]);
      GramsOfAllAppend(Pieces(texts[..|texts| - 1]), Split(texts[|texts| - 1]));
    }
  }

  // ---- the words can be read back ----

  function Words(pieces: seq<Text>): seq<Text> {
    if pieces == [] then []
    else Words(pieces[..|pieces| - 1]) + if pieces[|pieces| - 1] == [] then [] else [pieces[|pieces| - 1]]
  }

  /** A gram of one code unit starts a word, every other adds its last one to the word before. */
  function Decode(grams: seq<Text>): seq<Text> {
    if grams == [] then []
    else
      var words, last := Decode(grams[..|grams| - 1]), grams[|grams| - 1];
      if |last| <= 1 || words == [] then words + [last]
      else words[..|words| - 1] + [words[|words| - 1] + [last[|last| - 1]]]
  }

  lemma {:induction false} DecodeStart(grams: seq<Text>, gram: Text)
    requires |gram| == 1
    ensures Decode(grams + [gram]) == Decode(grams) + [gram]
  {
  }

  lemma {:induction false} DecodeLonger(grams: seq<Text>, gram: Text, words: seq<Text>, word: Text, c: CodeUnit)
    requires |gram| > 1 && gram[|gram| - 1] == c && Decode(grams) == words + [word]
    ensures Decode(grams + [gram]) == words + [word + [c]]
  {
  }

  lemma GramsOneMore(grams: seq<Text>, word: Text, n: nat)
    requires 0 < n <= |word|
    ensures grams + Grams(word)[..n] == (grams + Grams(word)[..n - 1]) + [GramAt(word, n - 1)]
    ensures word[..n] == word[..n - 1] + [word[n - 1]]
  {
  }

  lemma {:induction false} DecodeWord(grams: seq<Text>, word: Text, n: nat)
    requires 0 < n <= |word|
    ensures Decode(grams + Grams(word)[..n]) == Decode(grams) + [word[..n]]
    decreases n
  {
    hide Decode, Grams;
    var gram := GramAt(word, n - 1);
    GramsOneMore(grams, word, n);
    if n == 1 {
      assert grams + Grams(word)[..0] == grams;
      DecodeStart(grams, gram);
    } else {
      DecodeWord(grams, word, n - 1);
      DecodeLonger(grams + Grams(word)[..n - 1], gram, Decode(grams), word[..n - 1], word[n - 1]);
    }
  }

  /** The index tells the words in their order: it is decoded to them. */
  lemma {:induction false} DecodesToTheWords(pieces: seq<Text>)
    ensures Decode(GramsOfAll(pieces)) == Words(pieces)
    decreases |pieces|
  {
    if pieces != [] {
      var init, last := pieces[..|pieces| - 1], pieces[|pieces| - 1];
      DecodesToTheWords(init);
      if last == [] {
        assert GramsOfAll(init) + Grams(last) == GramsOfAll(init);
      } else {
        DecodeWord(GramsOfAll(init), last, |last|);
        assert Grams(last)[..|last|] == Grams(last) && last[..|last|] == last;
      }
    }
  }

  lemma {:induction false} EmptyPiecesDoNotMatter(pieces: seq<Text>)
    ensures GramsOfAll(Words(pieces)) == GramsOfAll(pieces)
    decreases |pieces|
  {
    if pieces != [] {
      var init, last := pieces[..|pieces| - 1], pieces[|pieces| - 1];
      EmptyPiecesDoNotMatter(init);
      if last != [] {
        assert (Words(init) + [last])[..|Words(init)|] == Words(init);
      } else {
        assert Words(init) + [] == Words(init);
        assert GramsOfAll(init) + Grams(last) == GramsOfAll(init);
      }
    }
  }

  /** Texts are indexed alike exactly when they have the same words in the same order. */
  lemma {:induction false} IndexIsInjectiveOnWords(a: seq<Text>, b: seq<Text>)
    ensures Index(a) == Index(b) <==> Words(Pieces(a)) == Words(Pieces(b))
  {
    DecodesToTheWords(Pieces(a));
    DecodesToTheWords(Pieces(b));
    EmptyPiecesDoNotMatter(Pieces(a));
    EmptyPiecesDoNotMatter(Pieces(b));
  }

  // ---- prefix search ----

  lemma PrefixIffGramsPrefix(q: Text, w: Text)
    ensures q <= w <==> Grams(q) <= Grams(w)
  {
    if q <= w {
      forall k | 0 <= k < |q| ensures GramAt(q, k) == GramAt(w, k) {
        assert q == w[..|q|];
      }
    }
    if Grams(q) <= Grams(w) {
      forall k | 0 <= k < |q| ensures q[k] == w[k] {
        assert Grams(q)[k] == Grams(w)[k];
      }
    }
  }

  ghost predicate OccursAt(block: seq<Text>, grams: seq<Text>, k: nat) {
    k + |block| <= |grams| && grams[k..k + |block|] == block
  }

  lemma BlockBefore(block: seq<Text>, a: seq<Text>, b: seq<Text>, k: nat)
    requires k + |block| <= |a|
    ensures OccursAt(block, a + b, k) <==> OccursAt(block, a, k)
  {
  }

  /** No block runs into a word. */
  lemma NoOverlap(q: Text, a: seq<Text>, w: Text, k: nat)
    requires k < |a| < k + |q|
    ensures !OccursAt(Grams(q), a + Grams(w), k)
  {
    var all := a + Grams(w);
    if k + |q| <= |all| {
      assert all[|a|] == GramAt(w, 0);
      assert all[k..k + |q|][|a| - k] != Grams(q)[|a| - k];
    }
  }

  /** A block that starts inside a word starts with it. */
  lemma BlockInWord(q: Text, a: seq<Text>, w: Text, k: nat)
    requires q != [] && |a| <= k
    ensures OccursAt(Grams(q), a + Grams(w), k) <==> k == |a| && q <= w
  {
    var all := a + Grams(w);
    PrefixIffGramsPrefix(q, w);
    if k + |q| <= |all| {
      assert all[k..k + |q|] == Grams(w)[k - |a|..k - |a| + |q|];
      if k > |a| {
        assert |all[k..k + |q|][0]| > 1 && |Grams(q)[0]| == 1;
      }
    }
  }

  lemma {:induction false} BlockIsPrefix(q: Text, pieces: seq<Text>, k: nat) returns (w: Text)
    requires q != [] && OccursAt(Grams(q), GramsOfAll(pieces), k)
    ensures w in pieces && q <= w
    decreases |pieces|
  {
    var init, last := pieces[..|pieces| - 1], pieces[|pieces| - 1];
    var a := GramsOfAll(init);
    w := last;
    if k >= |a| {
      BlockInWord(q, a, last, k);
    } else if k + |q| > |a| {
      NoOverlap(q, a, last, k);
    } else {
      BlockBefore(Grams(q), a, Grams(last), k);
      w := BlockIsPrefix(q, init, k);
    }
  }

  lemma {:induction false} PrefixIsBlock(q: Text, pieces: seq<Text>, w: Text) returns (k: nat)
    requires q != [] && w in pieces && q <= w
    ensures OccursAt(Grams(q), GramsOfAll(pieces), k)
    decreases |pieces|
  {
    var init, last := pieces[..|pieces| - 1], pieces[|pieces| - 1];
    var a := GramsOfAll(init);
    assert pieces == init + [last];
    k := |a|;
    if w in init {
      k := PrefixIsBlock(q, init, w);
      BlockBefore(Grams(q), a, Grams(last), k);
    } else {
      BlockInWord(q, a, last, k);
    }
  }

  /** The grams of a search word stand side by side in the index exactly when a word has it as a prefix. */
  lemma {:induction false} PrefixSearchIsExact(q: Text, texts: seq<Text>)
    requires q != []
    ensures (exists k :: OccursAt(Grams(q), Index(texts), k)) <==> exists w :: w in Pieces(texts) && q <= w
  {
    if k: nat :| OccursAt(Grams(q), Index(texts), k) {
      var w := BlockIsPrefix(q, Pieces(texts), k);
    }
    if w :| w in Pieces(texts) && q <= w {
      var k := PrefixIsBlock(q, Pieces(texts), w);
      assert OccursAt(Grams(q), Index(texts), k);
      assert exists w :: w in Pieces(texts) && q <= w;
    }
  }

  lemma {:induction false} WordHasNoSeparators(word: Text)
    requires IsWord(word)
    ensures Separators(word) == []
    decreases |word|
  {
    if word != [] {
      assert !IsSeparator(word[|word| - 1]);
      WordHasNoSeparators(word[..|word| - 1]);
    }
  }

  lemma {:induction false} OnePiece(piece: Text, text: Text)
    requires Split(text) == [piece]
    ensures Index([text]) == Grams(piece)
  {
    assert [text][..0] == [] && [piece][..0] == [];
    assert Pieces([text]) == Pieces([]) + Split(text);
    assert GramsOfAll([piece]) == GramsOfAll([]) + Grams(piece);
    hide Split, Grams, GramsOfAll, Pieces;
  }

  /** A word without separators is its own only piece, so its index holds its grams. */
  lemma {:induction false} WordIsOnePiece(word: Text)
    requires IsWord(word)
    ensures Split(word) == [word] && Index([word]) == Grams(word)
  {
    WordHasNoSeparators(word);
    SplitJoins(word);
    assert Joined(Split(word), []) == Split(word)[0];
    hide Split, Separators, IsWord, Grams, Joined, Index;
    assert Split(word) == [word];
    OnePiece(word, word);
  }

  /** Prefix search on indexed words: the index of the prefix is a prefix of the index of the word. */
  lemma PrefixIffIndexPrefix(q: Text, w: Text)
    requires IsWord(q) && IsWord(w)
    ensures q <= w <==> Index([q]) <= Index([w])
    ensures q == w <==> Index([q]) == Index([w])
  {
    WordIsOnePiece(q);
    WordIsOnePiece(w);
    PrefixIffGramsPrefix(q, w);
    PrefixIffGramsPrefix(w, q);
  }

  /** The hyphen, the control characters for white space, and the spaces of Unicode. */
  const SEPARATORS: set<CodeUnit> :=
    {0x2D, 0x09, 0x0A, 0x0B, 0x0C, 0x0D, 0x20, 0xA0, 0x1680, 0x2000, 0x2001, 0x2002, 0x2003, 0x2004, 0x2005, 0x2006, 0x2007,
     0x2008, 0x2009, 0x200A, 0x2028, 0x2029, 0x202F, 0x205F, 0x3000, 0xFEFF}

  /** No piece of a text holds any of them, and no other code unit is lost. */
  lemma SeparatorsAreThose(c: CodeUnit)
    ensures IsSeparator(c) <==> c in SEPARATORS
  {
  }

  /** Gram `k` of a word is made of its up to three code units that end at place `k`. */
  lemma GramSpells(word: Text, k: nat, i: nat)
    requires k < |word| && i < |Grams(word)[k]|
    ensures Grams(word)[k][i] == word[k + 1 + i - |Grams(word)[k]|]
    ensures |Grams(word)[k]| == (if k == 0 then 1 else if k == 1 then 2 else 3)
  {
  }
}
