/** The "Translate" handler of the Japanese-to-Kannada learning page: the
    blank-input gate, the sentence chain (translate, transliterate twice,
    synthesise audio), the word-by-word flashcards that pair the Japanese
    segmenter's tokens with the whitespace-split Kannada translation by
    position, and the handler that turns any failure into one error box.

    Every outside library is a field of `Collaborators`: a total function
    that returns a value or the message of the exception it raised. The
    handler records each call it makes into them, in order, so that what is
    and is not called can be stated. */
module KannadaViaJapanese {
  import opened PyText
  import opened Decimal

  type Audio = seq<bv8>

  datatype Option<T> = None | Some(value: T)

  /** The value of an outside call, or the text `str(e)` of the exception
      `e` it raised. */
  datatype Result<T> = Ok(value: T) | Failure(message: string) {
    function Error(): Option<string> {
      if Failure? then Some(message) else None
    }
  }

  /** The outside libraries, fixed to the arguments the page passes them:
      Google translation from "ja" to "kn"; aksharamukha from "Kannada" to
      "ISO"; sanscript from KANNADA to ITRANS; gTTS speech in "kn", read
      back as MP3 bytes; and the TinySegmenter tokenizer. */
  datatype Collaborators = Collaborators(
    translate: string -> Result<string>,
    toLatin: string -> Result<string>,
    toPhonetic: string -> Result<string>,
    speak: string -> Result<Audio>,
    segment: string -> Result<seq<string>>)

  /** One call into an outside library, with the text it was given. */
  datatype Call =
    | Translate(text: string)
    | ToLatin(text: string)
    | ToPhonetic(text: string)
    | Speak(text: string)
    | Segment(text: string)

  /** The exception message `call` ends with, if it fails. */
  function Outcome(c: Collaborators, call: Call): Option<string> {
    match call
    case Translate(t) => c.translate(t).Error()
    case ToLatin(t) => c.toLatin(t).Error()
    case ToPhonetic(t) => c.toPhonetic(t).Error()
    case Speak(t) => c.speak(t).Error()
    case Segment(t) => c.segment(t).Error()
  }

  predicate Fails(c: Collaborators, call: Call) {
    Outcome(c, call).Some?
  }

  predicate SucceedAll(c: Collaborators, calls: seq<Call>) {
    forall k :: 0 <= k < |calls| ==> !Fails(c, calls[k])
  }

  /** No call is made after one that failed: only the last may fail. */
  predicate StopsAtFailure(c: Collaborators, calls: seq<Call>) {
    forall k :: 0 <= k < |calls| - 1 ==> !Fails(c, calls[k])
  }

  predicate EndsInFailure(c: Collaborators, calls: seq<Call>) {
    calls != [] && Fails(c, calls[|calls| - 1])
  }

  /** Latin script, phonetics and audio of one piece of Kannada text. */
  datatype Rendering = Rendering(latin: string, phonetic: string, audio: Audio)

  /** A download button: its label, the bytes it offers, the file name. */
  datatype Download = Download(caption: string, data: Audio, fileName: string)

  /** One flashcard: an expander titled `title`, holding the word pair, its
      rendering and a download button for the word's audio. `number` is not
      shown on its own: it is the `i+1` that the title, the button label and
      the file name render. */
  datatype Card = Card(
    number: nat,
    title: string,
    japanese: string,
    kannada: string,
    rendering: Rendering,
    download: Download)

  /** What the handler puts on the page, in order. */
  datatype Element =
    | Warning(text: string)
    | ErrorBox(text: string)
    | SentenceBox(japanese: string, kannada: string, rendering: Rendering, download: Download)
    | Flashcard(card: Card)
  {
    predicate Offers() {
      SentenceBox? || Flashcard?
    }

    function Offered(): Download
      requires Offers()
    {
      if SentenceBox? then download else card.download
    }
  }

  const WarningText := "Please enter Japanese text."
  const SentenceButtonLabel := "Download Sentence Audio"
  const SentenceFileName := "sentence.mp3"

  function ErrorText(message: string): string {
    "Error: " + message
  }

  /** Titles, button labels and file names use the 1-based number `i + 1`
      of the card at loop index `i`. */
  function CardTitle(i: nat, jw: string): string {
    "Word " + FromNat(i + 1) + ": " + jw
  }

  function CardButtonLabel(i: nat): string {
    "Download Audio (Word " + FromNat(i + 1) + ")"
  }

  function CardFileName(i: nat): string {
    "word_" + FromNat(i + 1) + ".mp3"
  }

  /** The digits between "Word " and ": jw" read back as `i + 1`. */
  lemma CardTitleNumber(i: nat, jw: string)
    ensures var title := CardTitle(i, jw);
      && |title| >= 8 + |jw|
      && title[..5] == "Word " && title[|title| - |jw| - 2..] == ": " + jw
      && AllDigits(title[5..|title| - |jw| - 2]) && ToNat(title[5..|title| - |jw| - 2]) == i + 1
  {
    ToNatFromNat(i + 1);
    var title := CardTitle(i, jw);
    assert title[5..|title| - |jw| - 2] == FromNat(i + 1);
  }

  /** The digits between "Download Audio (Word " and ")" read back as `i + 1`. */
  lemma CardButtonLabelNumber(i: nat)
    ensures var caption := CardButtonLabel(i);
      && |caption| >= 23
      && caption[..21] == "Download Audio (Word " && caption[|caption| - 1] == ')'
      && AllDigits(caption[21..|caption| - 1]) && ToNat(caption[21..|caption| - 1]) == i + 1
  {
    ToNatFromNat(i + 1);
    var caption := CardButtonLabel(i);
    assert caption[21..|caption| - 1] == FromNat(i + 1);
  }

  /** The digits between "word_" and ".mp3" read back as `i + 1`. */
  lemma CardFileNameNumber(i: nat)
    ensures var name := CardFileName(i);
      && |name| >= 10
      && name[..5] == "word_" && name[|name| - 4..] == ".mp3"
      && AllDigits(name[5..|name| - 4]) && ToNat(name[5..|name| - 4]) == i + 1
  {
    ToNatFromNat(i + 1);
    var name := CardFileName(i);
    assert name[5..|name| - 4] == FromNat(i + 1);
  }

  /** Two cards never share a download file name, and none is called
      like the sentence clip. */
  lemma CardFileNamesDistinct(i: nat, j: nat)
    ensures CardFileName(i) == CardFileName(j) <==> i == j
    ensures CardFileName(i) != SentenceFileName
  {
    NumeralDelimited("word_", i + 1, ".mp3", j + 1, ".mp3");
    assert CardFileName(i)[0] == 'w' != SentenceFileName[0];
  }

  /** Two cards never share a download button label, and none is labelled
      like the sentence's button. */
  lemma CardButtonLabelsDistinct(i: nat, j: nat)
    ensures CardButtonLabel(i) == CardButtonLabel(j) <==> i == j
    ensures CardButtonLabel(i) != SentenceButtonLabel
  {
    NumeralDelimited("Download Audio (Word ", i + 1, ")", j + 1, ")");
    assert CardButtonLabel(i)[9] == 'A' != SentenceButtonLabel[9];
  }

  /** A card title determines the card's number and its Japanese word. */
  lemma CardTitlesDistinct(i: nat, j: nat, x: string, y: string)
    ensures CardTitle(i, x) == CardTitle(j, y) <==> i == j && x == y
  {
    NumeralDelimited("Word ", i + 1, ": " + x, j + 1, ": " + y);
    assert CardTitle(i, x) == "Word " + FromNat(i + 1) + (": " + x);
    assert CardTitle(j, y) == "Word " + FromNat(j + 1) + (": " + y);
    assert (": " + x)[2..] == x && (": " + y)[2..] == y;
  }

  function Min(a: nat, b: nat): nat {
    if a < b then a else b
  }

  /** Positional pairing: the i-th token of `xs` with the i-th of `ys`, as
      far as the shorter sequence reaches. */
  function Pair<A, B>(xs: seq<A>, ys: seq<B>): (pairs: seq<(A, B)>)
    ensures |pairs| == Min(|xs|, |ys|)
    ensures forall i :: 0 <= i < |pairs| ==> pairs[i] == (xs[i], ys[i])
    decreases |xs|
  {
    if xs == [] || ys == [] then [] else [(xs[0], ys[0])] + Pair(xs[1..], ys[1..])
  }

  /** Tokens appended to the first sequence, when it is the longer one,
      play no part. */
  lemma PairIgnoresSurplus<A, B>(xs: seq<A>, ys: seq<B>, extra: seq<A>)
    requires |xs| >= |ys|
    ensures Pair(xs + extra, ys) == Pair(xs, ys)
  {
    var p, q := Pair(xs + extra, ys), Pair(xs, ys);
    assert |p| == |q|;
    forall i | 0 <= i < |q| ensures p[i] == q[i] {
      assert (xs + extra)[i] == xs[i];
    }
  }

  /** Cutting the first sequence, when it is the longer one, down to the
      second one's length leaves the pairs as they are. */
  lemma PairTruncated<A, B>(xs: seq<A>, ys: seq<B>)
    requires |xs| >= |ys|
    ensures Pair(xs[..|ys|], ys) == Pair(xs, ys)
  {
    var p, q := Pair(xs[..|ys|], ys), Pair(xs, ys);
    assert |p| == |q|;
    forall i | 0 <= i < |q| ensures p[i] == q[i] {
      assert xs[..|ys|][i] == xs[i];
    }
  }

  /** Tokens appended to the second sequence, when it is the longer one,
      play no part. */
  lemma PairIgnoresSurplusRight<A, B>(xs: seq<A>, ys: seq<B>, extra: seq<B>)
    requires |ys| >= |xs|
    ensures Pair(xs, ys + extra) == Pair(xs, ys)
  {
    var p, q := Pair(xs, ys + extra), Pair(xs, ys);
    assert |p| == |q|;
    forall i | 0 <= i < |q| ensures p[i] == q[i] {
      assert (ys + extra)[i] == ys[i];
    }
  }

  /** Cutting the second sequence, when it is the longer one, down to the
      first one's length leaves the pairs as they are. */
  lemma PairTruncatedRight<A, B>(xs: seq<A>, ys: seq<B>)
    requires |ys| >= |xs|
    ensures Pair(xs, ys[..|xs|]) == Pair(xs, ys)
  {
    var p, q := Pair(xs, ys[..|xs|]), Pair(xs, ys);
    assert |p| == |q|;
    forall i | 0 <= i < |q| ensures p[i] == q[i] {
      assert ys[..|xs|][i] == ys[i];
    }
  }

  /** Four Japanese tokens against two Kannada ones keep the first two
      pairs; no Japanese token gives no pair; equal lengths drop nothing. */
  lemma PairScenarios()
    ensures Pair(["私", "は", "学生", "です"], ["ನಾನು", "ವಿದ್ಯಾರ್ಥಿ"])
      == [("私", "ನಾನು"), ("は", "ವಿದ್ಯಾರ್ಥಿ")]
    ensures Pair<string, string>([], ["ಹಲೋ"]) == []
    ensures Pair(["a", "b", "c"], ["x", "y", "z"]) == [("a", "x"), ("b", "y"), ("c", "z")]
  {
    var p := Pair(["私", "は", "学生", "です"], ["ನಾನು", "ವಿದ್ಯಾರ್ಥಿ"]);
    assert |p| == 2;
  }

  /** The sentence and each word go through the same three calls, in
      order: Latin script, phonetics, audio. The first failure ends it. */
  function Render(c: Collaborators, kannada: string): Result<Rendering> {
    match c.toLatin(kannada)
    case Failure(m) => Failure(m)
    case Ok(latin) =>
      match c.toPhonetic(kannada)
      case Failure(m) => Failure(m)
      case Ok(phonetic) =>
        match c.speak(kannada)
        case Failure(m) => Failure(m)
        case Ok(audio) => Ok(Rendering(latin, phonetic, audio))
  }

  /** The calls `Render` makes, up to and including the first that fails. */
  function RenderCalls(c: Collaborators, kannada: string): seq<Call> {
    [ToLatin(kannada)] +
    if c.toLatin(kannada).Failure? then [] else
    [ToPhonetic(kannada)] +
    if c.toPhonetic(kannada).Failure? then [] else
    [Speak(kannada)]
  }

  /** `Render` fails exactly when the last call it makes fails, with that
      call's message, and no call before the last one fails. */
  lemma RenderCallsFailLast(c: Collaborators, kannada: string)
    ensures RenderCalls(c, kannada) != []
    ensures StopsAtFailure(c, RenderCalls(c, kannada))
    ensures EndsInFailure(c, RenderCalls(c, kannada)) <==> Render(c, kannada).Failure?
    ensures Render(c, kannada).Failure? ==>
      Outcome(c, RenderCalls(c, kannada)[|RenderCalls(c, kannada)| - 1]) == Some(Render(c, kannada).message)
  {
  }

  /** Index of the first word whose rendering fails, or `|words|`. */
  function FirstFailure(c: Collaborators, words: seq<string>): (f: nat)
    ensures f <= |words|
    ensures forall k :: 0 <= k < f ==> Render(c, words[k]).Ok?
    ensures f < |words| ==> Render(c, words[f]).Failure?
    decreases |words|
  {
    if words == [] || Render(c, words[0]).Failure? then 0
    else 1 + FirstFailure(c, words[1..])
  }

  /** The conditions `FirstFailure` promises determine it. */
  lemma FirstFailureIs(c: Collaborators, words: seq<string>, i: nat)
    requires i <= |words|
    requires forall k :: 0 <= k < i ==> Render(c, words[k]).Ok?
    requires i < |words| ==> Render(c, words[i]).Failure?
    ensures FirstFailure(c, words) == i
  {
  }

  /** The first `n` cards, each built from its own tokens and rendering. */
  function CardsBefore(c: Collaborators, jws: seq<string>, kws: seq<string>, n: nat): seq<Card>
    requires n <= |jws| && n <= |kws|
    requires forall k :: 0 <= k < n ==> Render(c, kws[k]).Ok?
    decreases n
  {
    if n == 0 then []
    else CardsBefore(c, jws, kws, n - 1) + [MakeCard(n - 1, jws[n - 1], kws[n - 1], Render(c, kws[n - 1]).value)]
  }

  /** The cards the loop over `range(min(len(jws), len(kws)))` completes:
      one per index, up to the first word whose rendering fails. */
  function Flashcards(c: Collaborators, jws: seq<string>, kws: seq<string>): seq<Card> {
    var limit := Min(|jws|, |kws|);
    var f := FirstFailure(c, kws[..limit]);
    assert forall k :: 0 <= k < f ==> kws[k] == kws[..limit][k];
    CardsBefore(c, jws, kws, f)
  }

  /** Card `i` of the first `n` holds the i-th tokens, number `i + 1`. */
  lemma {:induction false} CardsBeforeAt(c: Collaborators, jws: seq<string>, kws: seq<string>, n: nat, i: nat)
    requires n <= |jws| && n <= |kws|
    requires forall k :: 0 <= k < n ==> Render(c, kws[k]).Ok?
    requires i < n
    ensures |CardsBefore(c, jws, kws, n)| == n
    ensures CardsBefore(c, jws, kws, n)[i] == MakeCard(i, jws[i], kws[i], Render(c, kws[i]).value)
    decreases n
  {
    if i < n - 1 {
      CardsBeforeAt(c, jws, kws, n - 1, i);
    } else if n > 1 {
      CardsBeforeAt(c, jws, kws, n - 1, 0);
    }
  }

  /** The message of the failure that stops that loop, if one does. */
  function CardFailure(c: Collaborators, jws: seq<string>, kws: seq<string>): Option<string> {
    var limit := Min(|jws|, |kws|);
    var f := FirstFailure(c, kws[..limit]);
    if f < limit then Render(c, kws[f]).Error() else None
  }

  /** The calls made for `words`, one rendering after the other. */
  function CallsFor(c: Collaborators, words: seq<string>): seq<Call>
    decreases |words|
  {
    if words == [] then []
    else CallsFor(c, words[..|words| - 1]) + RenderCalls(c, words[|words| - 1])
  }

  /** The calls that loop makes: those for every completed card, and those
      for the word that failed, if one did. */
  function CardCalls(c: Collaborators, jws: seq<string>, kws: seq<string>): seq<Call> {
    var limit := Min(|jws|, |kws|);
    var f := FirstFailure(c, kws[..limit]);
    CallsFor(c, kws[..if f < limit then f + 1 else f])
  }

  function MakeCard(i: nat, jw: string, kw: string, r: Rendering): Card {
    Card(i + 1, CardTitle(i, jw), jw, kw, r, Download(CardButtonLabel(i), r.audio, CardFileName(i)))
  }

  function SentenceBoxOf(text: string, kannada: string, r: Rendering): Element {
    SentenceBox(text, kannada, r, Download(SentenceButtonLabel, r.audio, SentenceFileName))
  }

  function Shown(cards: seq<Card>): (page: seq<Element>) {
    seq(|cards|, k requires 0 <= k < |cards| => Flashcard(cards[k]))
  }

  /** The `except` branch: what was shown stays, and a failure adds one
      error box after it. */
  function Funnel(shown: seq<Element>, failure: Option<string>): seq<Element> {
    shown + if failure.Some? then [ErrorBox(ErrorText(failure.value))] else []
  }

  /** Card `i` on the page: the i-th Japanese and Kannada tokens, number
      `i + 1`, titled, labelled and named with that number, rendered from
      its own Kannada word. */
  lemma FlashcardAt(c: Collaborators, jws: seq<string>, kws: seq<string>, i: nat)
    requires i < |Flashcards(c, jws, kws)|
    ensures i < |jws| && i < |kws| && Render(c, kws[i]).Ok?
    ensures Flashcards(c, jws, kws)[i] == MakeCard(i, jws[i], kws[i], Render(c, kws[i]).value)
  {
    var limit := Min(|jws|, |kws|);
    var f := FirstFailure(c, kws[..limit]);
    forall k | 0 <= k < f ensures Render(c, kws[k]).Ok? {
      assert kws[..limit][k] == kws[k];
    }
    CardsBeforeAt(c, jws, kws, f, 0);
    CardsBeforeAt(c, jws, kws, f, i);
  }

  /** There are at most `min(len(jws), len(kws))` cards, and that many
      exactly when no rendering failed. */
  lemma FlashcardsCount(c: Collaborators, jws: seq<string>, kws: seq<string>)
    ensures |Flashcards(c, jws, kws)| <= Min(|jws|, |kws|)
    ensures CardFailure(c, jws, kws) == None <==> |Flashcards(c, jws, kws)| == Min(|jws|, |kws|)
  {
    var limit := Min(|jws|, |kws|);
    var f := FirstFailure(c, kws[..limit]);
    forall k | 0 <= k < f ensures Render(c, kws[k]).Ok? {
      assert kws[..limit][k] == kws[k];
    }
    if f > 0 {
      CardsBeforeAt(c, jws, kws, f, 0);
    }
    if f < limit {
      assert kws[..limit][f] == kws[f];
    }
  }

  /** The cards hold the word pairs `Pair(jws, kws)` in order, numbered from
      1, each with the title, button label and file name of its number and
      the rendering of its own Kannada word; all of them are there exactly
      when no rendering failed. */
  lemma FlashcardsArePairs(c: Collaborators, jws: seq<string>, kws: seq<string>)
    ensures |Flashcards(c, jws, kws)| <= |Pair(jws, kws)|
    ensures forall i :: 0 <= i < |Flashcards(c, jws, kws)| ==>
      var card := Flashcards(c, jws, kws)[i];
      && (card.japanese, card.kannada) == Pair(jws, kws)[i]
      && card.number == i + 1
      && card.title == CardTitle(i, jws[i])
      && card.download == Download(CardButtonLabel(i), card.rendering.audio, CardFileName(i))
      && Render(c, kws[i]) == Ok(card.rendering)
    ensures CardFailure(c, jws, kws) == None <==> |Flashcards(c, jws, kws)| == |Pair(jws, kws)|
  {
    FlashcardsCount(c, jws, kws);
    var cards := Flashcards(c, jws, kws);
    forall i | 0 <= i < |cards|
      ensures && (cards[i].japanese, cards[i].kannada) == Pair(jws, kws)[i]
              && cards[i].number == i + 1
              && cards[i].title == CardTitle(i, jws[i])
              && cards[i].download == Download(CardButtonLabel(i), cards[i].rendering.audio, CardFileName(i))
              && Render(c, kws[i]) == Ok(cards[i].rendering)
    {
      FlashcardAt(c, jws, kws, i);
    }
  }

  /** With no Japanese token or no Kannada token there are no cards, no
      failure and no calls. */
  lemma NoTokensNoCards(c: Collaborators, jws: seq<string>, kws: seq<string>)
    requires jws == [] || kws == []
    ensures Flashcards(c, jws, kws) == []
    ensures CardFailure(c, jws, kws) == None
    ensures CardCalls(c, jws, kws) == []
  {
  }

  /** The first `n` cards depend on the first `n` tokens only. */
  lemma {:induction false} CardsBeforeOnlyPrefix(c: Collaborators, jws: seq<string>, kws: seq<string>, js: seq<string>, ks: seq<string>, n: nat)
    requires n <= |jws| && n <= |kws| && n <= |js| && n <= |ks|
    requires jws[..n] == js[..n] && kws[..n] == ks[..n]
    requires forall k :: 0 <= k < n ==> Render(c, kws[k]).Ok?
    ensures forall k :: 0 <= k < n ==> Render(c, ks[k]).Ok?
    ensures CardsBefore(c, jws, kws, n) == CardsBefore(c, js, ks, n)
    decreases n
  {
    forall k | 0 <= k < n ensures kws[k] == ks[k] && jws[k] == js[k] {
      assert kws[..n][k] == ks[..n][k] && jws[..n][k] == js[..n][k];
    }
    if n > 0 {
      assert jws[..n - 1] == jws[..n][..n - 1] && js[..n - 1] == js[..n][..n - 1];
      assert kws[..n - 1] == kws[..n][..n - 1] && ks[..n - 1] == ks[..n][..n - 1];
      CardsBeforeOnlyPrefix(c, jws, kws, js, ks, n - 1);
    }
  }

  /** Tokens beyond `min(len(jws), len(kws))` never reach a card, a call or
      the failure: cutting both lists to that length changes nothing. */
  lemma FlashcardsIgnoreSurplus(c: Collaborators, jws: seq<string>, kws: seq<string>)
    ensures var m := Min(|jws|, |kws|);
      && Flashcards(c, jws, kws) == Flashcards(c, jws[..m], kws[..m])
      && CardFailure(c, jws, kws) == CardFailure(c, jws[..m], kws[..m])
      && CardCalls(c, jws, kws) == CardCalls(c, jws[..m], kws[..m])
  {
    var m := Min(|jws|, |kws|);
    var js, ks := jws[..m], kws[..m];
    assert ks[..Min(|js|, |ks|)] == kws[..m];
    var f := FirstFailure(c, kws[..m]);
    forall k | 0 <= k < f ensures Render(c, kws[k]).Ok? {
      assert kws[..m][k] == kws[k];
    }
    assert jws[..f] == js[..f] && kws[..f] == ks[..f];
    CardsBeforeOnlyPrefix(c, jws, kws, js, ks, f);
    assert ks[..if f < m then f + 1 else f] == kws[..if f < m then f + 1 else f];
  }

  lemma {:induction false} CallsForSucceed(c: Collaborators, words: seq<string>)
    requires forall k :: 0 <= k < |words| ==> Render(c, words[k]).Ok?
    ensures SucceedAll(c, CallsFor(c, words))
    decreases |words|
  {
    if words != [] {
      var init := words[..|words| - 1];
      CallsForSucceed(c, init);
      RenderCallsFailLast(c, words[|words| - 1]);
      AppendSucceeding(c, CallsFor(c, init), RenderCalls(c, words[|words| - 1]));
    }
  }

  /** Calls that all succeed followed by calls of which only the last may
      fail: only the last may fail, and it is the last of the second part. */
  lemma AppendSucceeding(c: Collaborators, a: seq<Call>, b: seq<Call>)
    requires SucceedAll(c, a)
    ensures StopsAtFailure(c, b) ==> StopsAtFailure(c, a + b)
    ensures SucceedAll(c, b) ==> SucceedAll(c, a + b)
    ensures EndsInFailure(c, a + b) <==> EndsInFailure(c, b)
    ensures b != [] ==> (a + b)[|a + b| - 1] == b[|b| - 1]
  {
    if StopsAtFailure(c, b) {
      forall k | 0 <= k < |a + b| - 1 ensures !Fails(c, (a + b)[k]) {
        if k >= |a| { assert (a + b)[k] == b[k - |a|]; }
      }
    }
    if b == [] {
      assert a + b == a;
    }
  }

  /** In the card loop only the last call may fail; it fails exactly when
      the loop stops early, with the message the loop reports. */
  lemma CardCallsFailLast(c: Collaborators, jws: seq<string>, kws: seq<string>)
    ensures StopsAtFailure(c, CardCalls(c, jws, kws))
    ensures EndsInFailure(c, CardCalls(c, jws, kws)) <==> CardFailure(c, jws, kws).Some?
    ensures CardFailure(c, jws, kws).Some? ==>
      var calls := CardCalls(c, jws, kws);
      Outcome(c, calls[|calls| - 1]) == CardFailure(c, jws, kws)
  {
    var limit := Min(|jws|, |kws|);
    var f := FirstFailure(c, kws[..limit]);
    forall k | 0 <= k < f ensures Render(c, kws[..f][k]).Ok? {
      assert kws[..f][k] == kws[..limit][k];
    }
    CallsForSucceed(c, kws[..f]);
    if f < limit {
      var words := kws[..f + 1];
      assert words[..f] == kws[..f];
      assert words[f] == kws[f] == kws[..limit][f];
      RenderCallsFailLast(c, kws[f]);
      AppendSucceeding(c, CallsFor(c, kws[..f]), RenderCalls(c, kws[f]));
    }
  }

  /** A page made of the sentence box (or nothing) and numbered cards. */
  predicate NumberedPage(head: seq<Element>, cards: seq<Card>) {
    && (head == [] || (|head| == 1 && head[0].SentenceBox? &&
        head[0].download.fileName == SentenceFileName && head[0].download.caption == SentenceButtonLabel))
    && (forall k :: 0 <= k < |cards| ==>
        cards[k].download.fileName == CardFileName(k) && cards[k].download.caption == CardButtonLabel(k))
  }

  /** Element `k` of such a page offers the sentence clip or the clip of
      card number `k - |head| + 1`. */
  lemma OfferedAt(head: seq<Element>, cards: seq<Card>, failure: Option<string>, k: nat)
    requires NumberedPage(head, cards)
    requires k < |Funnel(head + Shown(cards), failure)| && Funnel(head + Shown(cards), failure)[k].Offers()
    ensures k < |head| + |cards|
    ensures var d := Funnel(head + Shown(cards), failure)[k].Offered();
      if k < |head| then d.fileName == SentenceFileName && d.caption == SentenceButtonLabel
      else d.fileName == CardFileName(k - |head|) && d.caption == CardButtonLabel(k - |head|)
  {
    var page := Funnel(head + Shown(cards), failure);
    if k < |head| {
      assert page[k] == head[0];
    } else {
      assert k < |head| + |cards|;
      assert page[k] == Flashcard(cards[k - |head|]);
    }
  }

  /** Every download on a page made of the sentence box (or nothing) and
      numbered cards has its own file name and its own button label. */
  lemma PageDownloadsDistinct(head: seq<Element>, cards: seq<Card>, failure: Option<string>)
    requires NumberedPage(head, cards)
    ensures DownloadsDistinct(Funnel(head + Shown(cards), failure))
  {
    var page := Funnel(head + Shown(cards), failure);
    var h := |head|;
    forall i, j | 0 <= i < j < |page| && page[i].Offers() && page[j].Offers()
      ensures page[i].Offered().fileName != page[j].Offered().fileName
      ensures page[i].Offered().caption != page[j].Offered().caption
    {
      OfferedAt(head, cards, failure, i);
      OfferedAt(head, cards, failure, j);
      CardFileNamesDistinct(j - h, if i < h then 0 else i - h);
      CardButtonLabelsDistinct(j - h, if i < h then 0 else i - h);
    }
  }

  predicate DownloadsDistinct(page: seq<Element>) {
    forall i, j :: 0 <= i < j < |page| && page[i].Offers() && page[j].Offers() ==>
      && page[i].Offered().fileName != page[j].Offered().fileName
      && page[i].Offered().caption != page[j].Offered().caption
  }

  predicate HasError(page: seq<Element>) {
    page != [] && page[|page| - 1].ErrorBox?
  }

  /** `not text.strip()`: the text is empty or all whitespace. */
  predicate Blank(text: string)
    ensures Blank(text) <==> AllSpace(text)
  {
    Strip(text) == []
  }

  /** The loop over `range(limit)`, `limit = min(len(japaneseWords),
      len(kanWords))`: pair the i-th tokens, render the Kannada word, build
      card i; the first failing rendering ends the loop with its message. */
  method RenderFlashcards(japaneseWords: seq<string>, kanWords: seq<string>, c: Collaborators)
    returns (cards: seq<Card>, failure: Option<string>, calls: seq<Call>)
    ensures cards == Flashcards(c, japaneseWords, kanWords)
    ensures failure == CardFailure(c, japaneseWords, kanWords)
    ensures calls == CardCalls(c, japaneseWords, kanWords)
  {
    var limit := Min(|japaneseWords|, |kanWords|);
    cards, failure, calls := [], None, [];
    for i := 0 to limit
      invariant forall k :: 0 <= k < i ==> Render(c, kanWords[k]).Ok?
      invariant cards == CardsBefore(c, japaneseWords, kanWords, i)
      invariant calls == CallsFor(c, kanWords[..i])
    {
      var jw := japaneseWords[i];
      var kw := kanWords[i];
      var rendered := Render(c, kw);
      assert kanWords[..i + 1][..i] == kanWords[..i];
      calls := calls + RenderCalls(c, kw);
      if rendered.Failure? {
        FirstFailureIs(c, kanWords[..limit], i);
        failure := Some(rendered.message);
        return;
      }
      cards := cards + [MakeCard(i, jw, kw, rendered.value)];
    }
    FirstFailureIs(c, kanWords[..limit], limit);
  }

  /** What the chain leaves on the page: the sentence box once the
      translation and its rendering succeed, then the cards, then an error
      box if some call failed. */
  function ChainPage(text: string, c: Collaborators): seq<Element> {
    var t := c.translate(text);
    if t.Failure? then Funnel([], Some(t.message)) else
    var r := Render(c, t.value);
    if r.Failure? then Funnel([], Some(r.message)) else
    var head := [SentenceBoxOf(text, t.value, r.value)];
    var jws := c.segment(text);
    if jws.Failure? then Funnel(head, Some(jws.message)) else
    var kws := Split(t.value);
    Funnel(head + Shown(Flashcards(c, jws.value, kws)), CardFailure(c, jws.value, kws))
  }

  /** The calls the chain makes, in order, up to the first that fails. */
  function ChainCalls(text: string, c: Collaborators): seq<Call> {
    var t := c.translate(text);
    if t.Failure? then [Translate(text)] else
    var before := [Translate(text)] + RenderCalls(c, t.value);
    if Render(c, t.value).Failure? then before else
    var jws := c.segment(text);
    if jws.Failure? then before + [Segment(text)] else
    before + [Segment(text)] + CardCalls(c, jws.value, Split(t.value))
  }

  /** `Funnel` adds at most one error box, always last, exactly when
      there is a failure, and keeps what was shown in front of it. */
  lemma FunnelShape(shown: seq<Element>, failure: Option<string>)
    requires forall k :: 0 <= k < |shown| ==> !shown[k].ErrorBox?
    ensures var page := Funnel(shown, failure);
      && page[..|shown|] == shown
      && (forall k :: 0 <= k < |page| - 1 ==> !page[k].ErrorBox?)
      && (HasError(page) <==> failure.Some?)
      && (failure.Some? ==> page[|page| - 1] == ErrorBox(ErrorText(failure.value)))
  {
    var page := Funnel(shown, failure);
    assert page[..|shown|] == shown;
  }

  /** The message of the first failure in the chain, if any. */
  function ChainFailure(text: string, c: Collaborators): Option<string> {
    var t := c.translate(text);
    if t.Failure? then Some(t.message) else
    var r := Render(c, t.value);
    if r.Failure? then Some(r.message) else
    var jws := c.segment(text);
    if jws.Failure? then Some(jws.message) else
    CardFailure(c, jws.value, Split(t.value))
  }

  /** The chain calls the translator first, calls nothing after a call
      that fails, and its last call fails exactly when the chain fails,
      with the chain's failure message. */
  lemma ChainCallsStopAtFailure(text: string, c: Collaborators)
    ensures var calls := ChainCalls(text, c);
      && calls != [] && calls[0] == Translate(text)
      && StopsAtFailure(c, calls)
      && (EndsInFailure(c, calls) <==> ChainFailure(text, c).Some?)
      && (ChainFailure(text, c).Some? ==> Outcome(c, calls[|calls| - 1]) == ChainFailure(text, c))
  {
    var t := c.translate(text);
    if t.Ok? {
      var first := [Translate(text)];
      RenderCallsFailLast(c, t.value);
      AppendSucceeding(c, first, RenderCalls(c, t.value));
      if Render(c, t.value).Ok? {
        var before := first + RenderCalls(c, t.value);
        AppendSucceeding(c, before, [Segment(text)]);
        var jws := c.segment(text);
        if jws.Ok? {
          var kws := Split(t.value);
          CardCallsFailLast(c, jws.value, kws);
          AppendSucceeding(c, before + [Segment(text)], CardCalls(c, jws.value, kws));
        }
      }
    }
  }

  /** The chain's page opens with the sentence box or an error box, and
      ends with an error box exactly when the chain fails, carrying the
      failure's message; no other error box appears. */
  lemma ChainPageShape(text: string, c: Collaborators)
    ensures var page := ChainPage(text, c);
      && page != [] && (page[0].ErrorBox? || page[0].SentenceBox?)
      && (forall k :: 0 <= k < |page| - 1 ==> !page[k].ErrorBox?)
      && (HasError(page) <==> ChainFailure(text, c).Some?)
      && (ChainFailure(text, c).Some? ==> page[|page| - 1].text == ErrorText(ChainFailure(text, c).value))
  {
    var t := c.translate(text);
    if t.Failure? {
      FunnelShape([], Some(t.message));
      return;
    }
    var r := Render(c, t.value);
    if r.Failure? {
      FunnelShape([], Some(r.message));
      return;
    }
    var head := [SentenceBoxOf(text, t.value, r.value)];
    var jws := c.segment(text);
    if jws.Failure? {
      FunnelShape(head, Some(jws.message));
      return;
    }
    var cards := Flashcards(c, jws.value, Split(t.value));
    var shown := head + Shown(cards);
    assert forall k :: 0 <= k < |shown| ==> !shown[k].ErrorBox? by {
      forall k | 0 <= k < |shown| ensures !shown[k].ErrorBox? {
        if k > 0 { assert shown[k] == Flashcard(cards[k - 1]); }
      }
    }
    FunnelShape(shown, CardFailure(c, jws.value, Split(t.value)));
    assert ChainPage(text, c)[0] == shown[0];
  }

  /** Every download the chain offers has its own file name and its own
      button label: `sentence.mp3` for the sentence, `word_1.mp3`,
      `word_2.mp3`, ... for the cards. */
  lemma ChainDownloadsDistinct(text: string, c: Collaborators)
    ensures DownloadsDistinct(ChainPage(text, c))
  {
    var t := c.translate(text);
    if t.Failure? {
      PageDownloadsDistinct([], [], Some(t.message));
      assert [] + Shown([]) == [];
      return;
    }
    var r := Render(c, t.value);
    if r.Failure? {
      PageDownloadsDistinct([], [], Some(r.message));
      assert [] + Shown([]) == [];
      return;
    }
    var head := [SentenceBoxOf(text, t.value, r.value)];
    var jws := c.segment(text);
    if jws.Failure? {
      PageDownloadsDistinct(head, [], Some(jws.message));
      assert head + Shown([]) == head;
      return;
    }
    var kws := Split(t.value);
    FlashcardsArePairs(c, jws.value, kws);
    PageDownloadsDistinct(head, Flashcards(c, jws.value, kws), CardFailure(c, jws.value, kws));
  }

  /** The handler run when "Translate" is pressed with input `text`: blank
      input shows only the warning and calls nothing; any other input runs
      the chain inside the `try`, whose failures all end in the one error
      box of the `except` branch. */
  method Submit(text: string, c: Collaborators) returns (page: seq<Element>, calls: seq<Call>)
    ensures Blank(text) <==> page == [Warning(WarningText)]
    ensures Blank(text) <==> calls == []
    ensures !Blank(text) ==> calls[0] == Translate(text)
    ensures page != []
    ensures forall k :: 0 <= k < |page| - 1 ==> !page[k].ErrorBox?
    ensures StopsAtFailure(c, calls)
    ensures HasError(page) <==> EndsInFailure(c, calls)
    ensures HasError(page) ==> page[|page| - 1].text == ErrorText(Outcome(c, calls[|calls| - 1]).value)
    ensures DownloadsDistinct(page)
    ensures !Blank(text) ==> page == ChainPage(text, c) && calls == ChainCalls(text, c)
  {
    if Blank(text) {
      page, calls := [Warning(WarningText)], [];
    } else {
      page, calls := RunChain(text, c);
      ChainCallsStopAtFailure(text, c);
      ChainPageShape(text, c);
      ChainDownloadsDistinct(text, c);
    }
  }

  /** The body of the `try`: translation, the sentence's rendering and box,
      segmentation, `split()` of the translation and the card loop. Each
      failure is the exception the `try` catches: what was shown up to it
      stays, and `Funnel` adds the error box. */
  method RunChain(text: string, c: Collaborators) returns (page: seq<Element>, calls: seq<Call>)
    ensures page == ChainPage(text, c)
    ensures calls == ChainCalls(text, c)
  {
    calls := [Translate(text)];
    var translation := c.translate(text);
    if translation.Failure? {
      page := Funnel([], Some(translation.message));
      return;
    }
    var kannada := translation.value;
    var sentence := Render(c, kannada);
    calls := calls + RenderCalls(c, kannada);
    if sentence.Failure? {
      page := Funnel([], Some(sentence.message));
      return;
    }
    var shown := [SentenceBoxOf(text, kannada, sentence.value)];
    var japaneseWords := c.segment(text);
    calls := calls + [Segment(text)];
    if japaneseWords.Failure? {
      page := Funnel(shown, Some(japaneseWords.message));
      return;
    }
    var kanWords := Split(kannada);
    var cards, failure, cardCalls := RenderFlashcards(japaneseWords.value, kanWords, c);
    calls := calls + cardCalls;
    page := Funnel(shown + Shown(cards), failure);
  }
}
