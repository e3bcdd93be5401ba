/** `CaptchaService` of class_CaptchaService.py: a random text over a fixed alphabet, stored in
    the Flask session and drawn onto an image. The random source is a parameter: `draw(i)` is
    the number behind the `i`-th `random.choice`. The image itself is not modelled. */
module Captcha {
  import opened Wrappers

  const DefaultWidth: int := 120
  const DefaultHeight: int := 30
  /** Upper-case letters and digits without the look-alikes `I`, `O`, `0` and `1`. */
  const DefaultCharacters: string := "ABCDEFGHJKLMNPQRSTUVWXYZ23456789"
  const DefaultTextLength: int := 5

  /** The service's settings, fixed at construction. */
  datatype CaptchaService = CaptchaService(width: int, height: int, characters: string, textLength: int)

  /** `CaptchaService()` with its keyword defaults. */
  const Default: CaptchaService := CaptchaService(DefaultWidth, DefaultHeight, DefaultCharacters, DefaultTextLength)

  /** The default alphabet has 32 characters and none of `I`, `O`, `0`, `1`. */
  lemma DefaultAlphabet()
    ensures |Default.characters| == 32 && Default.textLength == 5
    ensures 'I' !in Default.characters && 'O' !in Default.characters
    ensures '0' !in Default.characters && '1' !in Default.characters
  {
    var letters, digits := "ABCDEFGHJKLMNPQRSTUVWXYZ", "23456789";
    assert DefaultCharacters == letters + digits;
    assert forall i :: 0 <= i < |letters| ==> 'A' <= letters[i] <= 'Z' && letters[i] != 'I' && letters[i] != 'O';
    assert forall i :: 0 <= i < |digits| ==> '2' <= digits[i] <= '9';
    NoLookAlikes(letters, digits);
  }

  lemma NoLookAlikes(letters: string, digits: string)
    requires forall i :: 0 <= i < |letters| ==> 'A' <= letters[i] <= 'Z' && letters[i] != 'I' && letters[i] != 'O'
    requires forall i :: 0 <= i < |digits| ==> '2' <= digits[i] <= '9'
    ensures 'I' !in letters + digits && 'O' !in letters + digits
    ensures '0' !in letters + digits && '1' !in letters + digits
  {
  }

  /** `n` successive choices from `characters`; `None` is the `IndexError` that
      `random.choice` raises on an empty alphabet. */
  function Choices(characters: string, draw: nat -> nat, n: nat): (r: Option<string>)
    ensures r.Some? <==> (n == 0 || |characters| > 0)
    ensures r.Some? ==> |r.value| == n
    ensures r.Some? ==> forall i :: 0 <= i < n ==> r.value[i] == characters[draw(i) % |characters|]
  {
    if n == 0 then Some("")
    else if |characters| == 0 then None
    else
      var prefix := Choices(characters, draw, n - 1);
      Some(prefix.value + [characters[draw(n - 1) % |characters|]])
  }

  /** `generate_captcha_text`: `text_length` characters, each taken from the alphabet; a
      length below one gives the empty text. */
  function GenerateCaptchaText(service: CaptchaService, draw: nat -> nat): (r: Option<string>)
    ensures r.Some? <==> (service.textLength <= 0 || |service.characters| > 0)
    ensures r.Some? ==> |r.value| == if service.textLength <= 0 then 0 else service.textLength
    ensures r.Some? ==> forall i :: 0 <= i < |r.value| ==> r.value[i] in service.characters
  {
    var n: nat := if service.textLength <= 0 then 0 else service.textLength;
    var r := Choices(service.characters, draw, n);
    if r.Some? then
      assert forall i :: 0 <= i < |r.value| ==> r.value[i] == service.characters[draw(i) % |service.characters|];
      r
    else r
  }

  function IndexOf(s: string, c: char): (k: nat)
    requires c in s
    ensures k < |s| && s[k] == c
  {
    if s[0] == c then 0 else 1 + IndexOf(s[1..], c)
  }

  /** The draws that pick `text` from `characters`, one index per position. */
  function DrawsFor(characters: string, text: string): (draw: nat -> nat)
    requires forall i :: 0 <= i < |text| ==> text[i] in characters
    ensures forall i :: 0 <= i < |text| ==> draw(i) < |characters| && characters[draw(i)] == text[i]
  {
    (i: nat) => if i < |text| then IndexOf(characters, text[i]) else 0
  }

  lemma SmallRemainder(x: nat, m: nat)
    requires x < m
    ensures x % m == x
  {
  }

  /** Every text of the right length over the alphabet is one that some draws produce. */
  lemma EveryTextCanBeDrawn(service: CaptchaService, text: string)
    requires service.textLength > 0 && |text| == service.textLength
    requires forall i :: 0 <= i < |text| ==> text[i] in service.characters
    ensures GenerateCaptchaText(service, DrawsFor(service.characters, text)) == Some(text)
  {
    var draw := DrawsFor(service.characters, text);
    assert text[0] in service.characters;
    var r := GenerateCaptchaText(service, draw);
    forall i | 0 <= i < |text| ensures r.value[i] == text[i] {
      SmallRemainder(draw(i), |service.characters|);
    }
    assert r.value == text;
  }

  /** The Flask `session`, a dictionary the request handlers share. */
  class Session {
    var values: map<string, string>

    constructor(initial: map<string, string>)
      ensures values == initial
    {
      values := initial;
    }
  }

  /** `get_captcha`: the generated text is stored under `captcha` and is the text the image
      shows; `None` and an unchanged session when generation raises. */
  method GetCaptcha(service: CaptchaService, session: Session, draw: nat -> nat) returns (rendered: Option<string>)
    modifies session
    ensures rendered == GenerateCaptchaText(service, draw)
    ensures rendered.Some? ==> session.values == old(session.values)["captcha" := rendered.value]
    ensures rendered.None? ==> session.values == old(session.values)
  {
    var captchaText := GenerateCaptchaText(service, draw);
    if captchaText.None? {
      return None;
    }
    session.values := session.values["captcha" := captchaText.value];
    rendered := captchaText;
  }
}
