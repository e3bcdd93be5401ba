/** `Translator` of class_translator.py: full-width Chinese punctuation is rewritten before each
    sentence goes to the translation model, and the translations are joined by spaces. The
    sentence splitter (`sent_tokenize`) and the model (tokenizer, `generate`, `decode`) are
    parameters. */
module Translator {
  import opened PyText

  const FullWidthComma: char := '\U{FF0C}'
  const IdeographicStop: char := '\U{3002}'

  /** `preprocess_text`: every full-width comma becomes a comma and a space, then every
      ideographic full stop becomes a full stop and a space. */
  function PreprocessText(text: string): string {
    ReplaceChar(ReplaceChar(text, FullWidthComma, ", "), IdeographicStop, ". ")
  }

  /** What one character of the input becomes. */
  function Rewrite(c: char): string {
    if c == FullWidthComma then ", " else if c == IdeographicStop then ". " else [c]
  }

  /** The input rewritten character by character, in order. */
  function RewriteAll(text: string): string {
    if text == [] then [] else Rewrite(text[0]) + RewriteAll(text[1..])
  }

  lemma {:induction false} ReplaceCharAbsent(s: string, c: char, replacement: string)
    requires c !in s
    ensures ReplaceChar(s, c, replacement) == s
  {
    if s != [] {
      ReplaceCharAbsent(s[1..], c, replacement);
      assert s == [s[0]] + s[1..];
    }
  }

  lemma {:induction false} ReplaceCharConcat(a: string, b: string, c: char, replacement: string)
    ensures ReplaceChar(a + b, c, replacement) == ReplaceChar(a, c, replacement) + ReplaceChar(b, c, replacement)
  {
    if a != [] {
      assert (a + b)[1..] == a[1..] + b;
      ReplaceCharConcat(a[1..], b, c, replacement);
    } else {
      assert a + b == b;
    }
  }

  /** Each `，` becomes `, `, each `。` becomes `. `, and every other character is kept, in order. */
  lemma {:induction false} PreprocessMeaning(text: string)
    ensures PreprocessText(text) == RewriteAll(text)
  {
    if text != [] {
      PreprocessMeaning(text[1..]);
      var head := if text[0] == FullWidthComma then ", " else [text[0]];
      var rest := ReplaceChar(text[1..], FullWidthComma, ", ");
      assert ReplaceChar(text, FullWidthComma, ", ") == head + rest;
      ReplaceCharConcat(head, rest, IdeographicStop, ". ");
      if text[0] == FullWidthComma {
        assert ReplaceChar(head, IdeographicStop, ". ") == ", " by {
          ReplaceCharAbsent(head, IdeographicStop, ". ");
        }
      } else if text[0] == IdeographicStop {
        assert ReplaceChar(head, IdeographicStop, ". ") == ". " + ReplaceChar([], IdeographicStop, ". ");
      } else {
        assert ReplaceChar(head, IdeographicStop, ". ") == [text[0]] + ReplaceChar([], IdeographicStop, ". ");
      }
    }
  }

  /** The rewritten text holds no full-width comma and no ideographic full stop. */
  lemma {:induction false} PreprocessLeavesNoFullWidth(text: string)
    ensures FullWidthComma !in PreprocessText(text) && IdeographicStop !in PreprocessText(text)
  {
    PreprocessMeaning(text);
    RewriteAllLeavesNoFullWidth(text);
  }

  lemma {:induction false} RewriteAllLeavesNoFullWidth(text: string)
    ensures FullWidthComma !in RewriteAll(text) && IdeographicStop !in RewriteAll(text)
  {
    if text != [] {
      RewriteAllLeavesNoFullWidth(text[1..]);
    }
  }

  /** Rewriting twice is rewriting once. */
  lemma PreprocessIdempotent(text: string)
    ensures PreprocessText(PreprocessText(text)) == PreprocessText(text)
  {
    var once := PreprocessText(text);
    PreprocessLeavesNoFullWidth(text);
    ReplaceCharAbsent(once, FullWidthComma, ", ");
    ReplaceCharAbsent(once, IdeographicStop, ". ");
  }

  /** Each replaced character adds one character to the text. */
  lemma {:induction false} PreprocessLength(text: string)
    ensures |PreprocessText(text)| == |text| + Count(text, FullWidthComma) + Count(text, IdeographicStop)
  {
    PreprocessMeaning(text);
    RewriteAllLength(text);
  }

  lemma {:induction false} RewriteAllLength(text: string)
    ensures |RewriteAll(text)| == |text| + Count(text, FullWidthComma) + Count(text, IdeographicStop)
  {
    if text != [] {
      RewriteAllLength(text[1..]);
    }
  }

  // ---------------------------------------------------------------------------
  // translate

  /** The model's translation of each preprocessed sentence, in sentence order. */
  function Translations(sentences: seq<string>, model: string -> string): (t: seq<string>)
    ensures |t| == |sentences|
    ensures forall i :: 0 <= i < |t| ==> t[i] == model(PreprocessText(sentences[i]))
  {
    if sentences == [] then [] else [model(PreprocessText(sentences[0]))] + Translations(sentences[1..], model)
  }

  /** `translate`: sentence by sentence, then `" ".join(translations)`. */
  method Translate(text: string, sentTokenize: string -> seq<string>, model: string -> string) returns (r: string)
    ensures r == JoinSpaces(Translations(sentTokenize(text), model))
  {
    var sentences := sentTokenize(text);
    var translations: seq<string> := [];
    for i := 0 to |sentences|
      invariant translations == Translations(sentences[..i], model)
    {
      var processed := PreprocessText(sentences[i]);
      translations := translations + [model(processed)];
      assert sentences[..i + 1] == sentences[..i] + [sentences[i]];
      TranslationsAppend(sentences[..i], sentences[i], model);
    }
    assert sentences[..|sentences|] == sentences;
    r := JoinSpaces(translations);
  }

  lemma TranslationsAppend(sentences: seq<string>, s: string, model: string -> string)
    ensures Translations(sentences + [s], model) == Translations(sentences, model) + [model(PreprocessText(s))]
  {
  }

  /** When every translation is one word, the joined text splits back into the translations,
      in sentence order. */
  lemma TranslateWords(text: string, sentTokenize: string -> seq<string>, model: string -> string)
    requires forall i :: 0 <= i < |sentTokenize(text)| ==> IsWord(model(PreprocessText(sentTokenize(text)[i])))
    ensures Split(JoinSpaces(Translations(sentTokenize(text), model))) == Translations(sentTokenize(text), model)
  {
    SplitJoinRoundTrip(Translations(sentTokenize(text), model));
  }
}
