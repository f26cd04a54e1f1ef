# Kannada via Japanese: the "Translate" handler

A Dafny model of the Streamlit page `KannadaViaJapanese.py`, which teaches
Kannada to Japanese readers. When "Translate" is pressed, the page:

1. shows a warning and calls nothing if the input is blank (`text.strip()` is empty);
2. otherwise runs, inside one `try`:
   - the translation from Japanese to Kannada;
   - the sentence's Latin transliteration, phonetic transliteration and audio;
   - the sentence box, with a `sentence.mp3` download;
   - the Japanese segmenter;
   - `kannada.split()`;
   - a loop over `range(min(len(japanese_words), len(kan_words)))`. Step `i` pairs the i-th Japanese token with the i-th Kannada token, renders the Kannada word the same way as the sentence, and shows a flashcard titled `Word {i+1}: {jw}` with a download of `word_{i+1}.mp3`;
3. turns any exception in that chain into one `Error: ...` box.

The model has three modules:

- `PyText` (`pytext.dfy`): CPython's whitespace set, and `str.strip()` and `str.split()` without arguments.
  - `Split` is proved to produce only non-empty, whitespace-free tokens.
  - Split is empty exactly for blank input.
  - Split inverts joining with single spaces.
  - `" ".join(s.split())` is `s` stripped, with each inner whitespace run collapsed to one space.
- `Decimal` (`decimal.dfy`): `str(n)` for the 1-based card number used in the f-strings. It proves the numeral reads back, so that a label or file name with a number in it determines that number.
- `KannadaViaJapanese` (`flashcards.dfy`): the handler.
  - Every outside library is a total function returning `Ok(value)` or `Failure(str(e))`.
  - The handler records each call it makes, so the model can state what is called, and what is not.
  - `Submit` is the `if`/`else` at lines 48 and 116-117.
  - `RunChain` is the body of the `try`.
  - `RenderFlashcards` is the `for` loop, an imperative method with invariants.
  - `RunChain` and `RenderFlashcards` are proved equal to specification functions (`ChainPage`, `ChainCalls`, `Flashcards`, `CardFailure`, `CardCalls`), and the properties are proved about those functions.
  - `Submit` equals `ChainPage`/`ChainCalls` only when the input is not blank. On blank input its contract states the result directly: the warning alone, and no calls.

What the code does on a failure: everything already put on the page stays, and the `except` branch adds one error box after it. For example, the sentence box stays when the segmenter, or a word's audio, fails later, and so do the cards completed before the failing word. The model follows the code here, and `Funnel` keeps what was shown. The code never withdraws output already shown.

## Model

| member | source | states |
|---|---|---|
| PyText.Strip | KannadaViaJapanese.py:48 | `text.strip()` is empty exactly when the text is empty or all whitespace; otherwise it starts and ends with a non-whitespace character |
| PyText.StripRemovesPadding | KannadaViaJapanese.py:48 | `strip()` removes only whitespace, and only from the two ends: the text is the leading whitespace, then the result, then the trailing whitespace |
| PyText.Split | KannadaViaJapanese.py:82 | every token of `kannada.split()` is non-empty and holds no whitespace character |
| PyText.SplitIgnoresPadding | KannadaViaJapanese.py:82 | splitting the stripped text gives the same tokens as splitting the text |
| PyText.SplitEmptyIffBlank | KannadaViaJapanese.py:82 | `split()` returns no token exactly when the text is all whitespace, that is, exactly when `strip()` is empty |
| PyText.SplitJoinRoundTrip | KannadaViaJapanese.py:82 | joining well-formed tokens with single spaces and splitting again gives the same tokens back |
| PyText.JoinSplitCollapses | KannadaViaJapanese.py:82 | joining the tokens with single spaces gives the text with its ends trimmed and each inner whitespace run collapsed to one space |
| Decimal.FromNat | KannadaViaJapanese.py:100 | the numeral of `i+1` is a non-empty digit string with no leading zero |
| Decimal.ToNatFromNat | KannadaViaJapanese.py:100 | reading a numeral back gives the number |
| Decimal.FromNatInjective | KannadaViaJapanese.py:108-110 | two numbers have the same numeral exactly when they are equal |
| Decimal.NumeralDelimited | KannadaViaJapanese.py:108-110 | a common prefix, a numeral, then a suffix that opens with a non-digit: two such strings are equal exactly when their numbers and suffixes are |
| KannadaViaJapanese.Blank | KannadaViaJapanese.py:48 | the gate `not text.strip()` holds exactly when the text is empty or all whitespace |
| KannadaViaJapanese.CardTitle | KannadaViaJapanese.py:100 | the expander title `Word {i+1}: {jw}`; `CardTitleNumber` reads `i+1` back from it and `CardTitlesDistinct` proves it determines `i` and `jw` |
| KannadaViaJapanese.CardButtonLabel | KannadaViaJapanese.py:108 | the button label `Download Audio (Word {i+1})`; `CardButtonLabelNumber` reads `i+1` back from it and `CardButtonLabelsDistinct` proves it injective |
| KannadaViaJapanese.CardFileName | KannadaViaJapanese.py:110 | the file name `word_{i+1}.mp3`; `CardFileNameNumber` reads `i+1` back from it and `CardFileNamesDistinct` proves it injective and never `sentence.mp3` |
| KannadaViaJapanese.CardTitleNumber | KannadaViaJapanese.py:100 | a title is "Word ", then the digits of `i+1`, then ": " and the Japanese word |
| KannadaViaJapanese.CardButtonLabelNumber | KannadaViaJapanese.py:108 | a card's button label is "Download Audio (Word ", then the digits of `i+1`, then ")" |
| KannadaViaJapanese.CardFileNameNumber | KannadaViaJapanese.py:110 | a card's file name is "word_", then the digits of `i+1`, then ".mp3" |
| KannadaViaJapanese.CardTitlesDistinct | KannadaViaJapanese.py:100 | two card titles `Word {i+1}: {jw}` are equal exactly when the indices and the Japanese words are |
| KannadaViaJapanese.CardButtonLabelsDistinct | KannadaViaJapanese.py:107-108 | two card buttons have the same label exactly when they are the same card; none is labelled `Download Sentence Audio` |
| KannadaViaJapanese.CardFileNamesDistinct | KannadaViaJapanese.py:108-110 | `word_{i+1}.mp3` names two cards alike exactly when they are the same card; none is `sentence.mp3` |
| KannadaViaJapanese.Pair | KannadaViaJapanese.py:85-89 | positional pairing has length `min(len(jws), len(kws))`, and its i-th pair is `(jws[i], kws[i])` |
| KannadaViaJapanese.PairIgnoresSurplus | KannadaViaJapanese.py:85-87 | when the Japanese list is the longer one, tokens appended to it never reach a pair |
| KannadaViaJapanese.PairIgnoresSurplusRight | KannadaViaJapanese.py:85-87 | when the Kannada list is the longer one, tokens appended to it never reach a pair |
| KannadaViaJapanese.PairTruncated | KannadaViaJapanese.py:85-87 | when the Japanese list is the longer one, cutting it down to the Kannada list's length leaves the pairs unchanged |
| KannadaViaJapanese.PairTruncatedRight | KannadaViaJapanese.py:85-87 | when the Kannada list is the longer one, cutting it down to the Japanese list's length leaves the pairs unchanged |
| KannadaViaJapanese.PairScenarios | KannadaViaJapanese.py:85-89 | three cases: four Japanese tokens against two Kannada give the first two pairs; an empty list gives none; equal lengths keep all three in order |
| KannadaViaJapanese.ErrorText | KannadaViaJapanese.py:114 | the text `f"Error: {e}"` of the error box; `FunnelShape` and `ChainPageShape` prove the page's last element carries it, with the failing call's message, exactly when the chain fails |
| KannadaViaJapanese.SentenceBoxOf | KannadaViaJapanese.py:65-74 | the sentence box: input, translation, its rendering, and the `Download Sentence Audio` button with the sentence audio as `sentence.mp3`; `OfferedAt` and `ChainDownloadsDistinct` prove its download never clashes with a card's |
| KannadaViaJapanese.MakeCard | KannadaViaJapanese.py:100-111 | card `i`: the expander title `Word {i+1}: {jw}`, the word pair, the word's rendering, and the `Download Audio (Word {i+1})` button with its audio as `word_{i+1}.mp3`; `FlashcardAt` and `FlashcardsArePairs` prove card `i` on the page is this card for the i-th tokens |
| KannadaViaJapanese.Render | KannadaViaJapanese.py:56-62 | the Latin transliteration, the phonetics and the audio of one Kannada text, in that order (also lines 92-98 for each word); the first failing call's message is the result. `RenderCallsFailLast` proves it fails exactly when its last call does, with that call's message |
| KannadaViaJapanese.RenderCallsFailLast | KannadaViaJapanese.py:92-98 | the transliterations and the speech call: the rendering fails exactly when its last call fails, with that call's message, and no call is made after a failing one |
| KannadaViaJapanese.FirstFailure | KannadaViaJapanese.py:87-98 | the index at which the loop stops: every word before it renders, and the word at it fails |
| KannadaViaJapanese.FirstFailureIs | KannadaViaJapanese.py:87-98 | any index with those two properties is the one the loop stops at |
| KannadaViaJapanese.CardsBeforeAt | KannadaViaJapanese.py:87-111 | after `n` steps there are `n` cards, and card `i` is built from `jws[i]`, `kws[i]` and the rendering of `kws[i]` |
| KannadaViaJapanese.FlashcardAt | KannadaViaJapanese.py:87-111 | card `i` on the page holds `jws[i]` and `kws[i]`, number `i+1`, its own title, label and file name, and the rendering of its own Kannada word |
| KannadaViaJapanese.FlashcardsCount | KannadaViaJapanese.py:85-87 | at most `min(len(jws), len(kws))` cards are shown, and exactly that many when no rendering fails |
| KannadaViaJapanese.FlashcardsArePairs | KannadaViaJapanese.py:85-111 | the cards are the word pairs of `Pair(jws, kws)`, in order, numbered from 1, each titled and named by its number; all pairs appear exactly when nothing failed |
| KannadaViaJapanese.NoTokensNoCards | KannadaViaJapanese.py:85-87 | with no Japanese or no Kannada token there are no cards, no failure and no calls in the loop |
| KannadaViaJapanese.CardsBeforeOnlyPrefix | KannadaViaJapanese.py:87-89 | the first `n` cards depend only on the first `n` tokens of each list |
| KannadaViaJapanese.FlashcardsIgnoreSurplus | KannadaViaJapanese.py:85-87 | cutting both token lists to `min` length changes neither the cards, nor the failure, nor the calls |
| KannadaViaJapanese.CallsForSucceed | KannadaViaJapanese.py:91-98 | when every word renders, none of the loop's calls fails |
| KannadaViaJapanese.CardCallsFailLast | KannadaViaJapanese.py:87-98 | in the loop only the last call may fail; it fails exactly when the loop stops early, with the message the loop reports |
| KannadaViaJapanese.RenderFlashcards | KannadaViaJapanese.py:85-111 | the loop's cards, failure and calls are `Flashcards`, `CardFailure` and `CardCalls`; the first failing rendering ends it |
| KannadaViaJapanese.Funnel | KannadaViaJapanese.py:113-114 | the `except` branch appends `Error: {e}` to what is already shown; `FunnelShape` proves the shown part stays and exactly one error box comes last, exactly when there is a failure |
| KannadaViaJapanese.FunnelShape | KannadaViaJapanese.py:113-114 | the `except` branch keeps what was shown, and adds exactly one error box, at the end, exactly when there is a failure, carrying `Error: {e}` |
| KannadaViaJapanese.OfferedAt | KannadaViaJapanese.py:74-110 | each download on the page is either the sentence's (`sentence.mp3`) or card number `k+1`'s (`word_{k+1}.mp3`) |
| KannadaViaJapanese.PageDownloadsDistinct | KannadaViaJapanese.py:74-110 | no two downloads on a page share a file name or a button label |
| KannadaViaJapanese.ChainCallsStopAtFailure | KannadaViaJapanese.py:49-98 | the chain calls the translator first and nothing after a call that fails; its last call fails exactly when the chain fails, with the chain's message |
| KannadaViaJapanese.ChainPageShape | KannadaViaJapanese.py:49-114 | the page opens with the sentence box or an error box; it ends in an error box exactly when the chain fails, carrying that failure's message; no other error box appears |
| KannadaViaJapanese.ChainDownloadsDistinct | KannadaViaJapanese.py:74-110 | every download the chain offers has its own file name and its own button label |
| KannadaViaJapanese.RunChain | KannadaViaJapanese.py:49-114 | the `try` body with its `except` leaves the page `ChainPage` and makes the calls `ChainCalls` |
| KannadaViaJapanese.Submit | KannadaViaJapanese.py:47-117 | blank input gives only the warning, and only blank input calls nothing. Otherwise: the translator is called first; no call follows a failing one; the page ends in an error box exactly when the last call failed, and the box shows that call's message; no other error box appears; downloads are distinct |

## Left out

- The Streamlit page itself is left out: page configuration, hidden menus, the title, the text area, headings, markdown, expanders and audio players. The model keeps only what the handler shows, in order: the warning, the sentence box, the cards and the error box.
- The button and Streamlit's top-to-bottom rerun of the script are left out. `Submit` is one press of "Translate" with the text area's current value.
- Translation, both transliterations, speech synthesis and segmentation are left out. They are network services or foreign libraries, so each is an arbitrary function that returns a value or an exception message. The model fixes the arguments the page passes them: "ja" to "kn"; "Kannada" to "ISO"; KANNADA to ITRANS; "kn"; and the default TinySegmenter.
- The collaborators are modelled as mathematical functions, so equal inputs give equal outputs. A live network service may answer one text differently on two calls.
- A translator answer of `None` is left out: the model's translator returns a string or fails. With `None` the code would go on to pass it to the Latin transliteration at line 56, and then further, reporting whatever a later call raises. The model has no trace or error message for that case; it records only a string result or a failing translator call.
- Exceptions raised by the Streamlit calls themselves (`st.markdown`, `st.audio`, `st.download_button`, `st.expander`) are left out. So are exceptions that do not derive from `Exception` (`KeyboardInterrupt`, `SystemExit`), which the `except` does not catch.
- The MP3 bytes are an uninterpreted `seq<bv8>`. The `BytesIO` buffering in `make_audio` is I/O and is left out.
