/** `RawUserIdConverter.convert`: turns a command argument that is either a
    raw user ID or a user mention into the ID, without asking whether such a
    user exists. */
module UserIds {
  import opened Wrappers
  import opened Numerals

  /** Length of the run of ASCII digits at the start of `s`. */
  function DigitRun(s: string): (n: nat)
    ensures n <= |s|
    ensures forall i :: 0 <= i < n ==> IsDigit(s[i])
    ensures n < |s| ==> !IsDigit(s[n])
  {
    if s == [] || !IsDigit(s[0]) then 0 else 1 + DigitRun(s[1..])
  }

  function Min(a: nat, b: nat): nat
  {
    if a <= b then a else b
  }

  /** `ID_REGEX.match(s)` with `ID_REGEX = ([0-9]{15,20})`: anchored at the
      start only and greedy, so it takes up to 20 leading digits and ignores
      whatever follows. The result is the captured group. */
  function MatchId(s: string): (g: Option<string>)
    ensures g.Some? ==> AllDigits(g.value) && 15 <= |g.value| <= 20
  {
    var n := DigitRun(s);
    if n >= 15 then Some(s[..Min(n, 20)]) else None
  }

  /** Python's `$` without MULTILINE: the end of the string, or just before
      a newline that ends it. */
  predicate AtEnd(rest: string)
  {
    rest == [] || rest == "\n"
  }

  /** `USER_MENTION_REGEX.match(s)` with `USER_MENTION_REGEX = <@!?([0-9]{15,21})>$`. */
  function MatchMention(s: string): (g: Option<string>)
    ensures g.Some? ==> AllDigits(g.value) && 15 <= |g.value| <= 21
  {
    if |s| < 2 || s[..2] != "<@" then None
    else
      var body := if |s| > 2 && s[2] == '!' then s[3..] else s[2..];
      var n := DigitRun(body);
      if 15 <= n <= 21 && n < |body| && body[n] == '>' && AtEnd(body[n + 1..])
      then Some(body[..n])
      else None
  }

  /** The text of the `BadArgument` raised for an argument that is neither. */
  function BadArgument(argument: string): string
  {
    "'" + argument + "' doesn't look like a valid user ID."
  }

  /** The converter: the raw-ID pattern is tried first, then the mention
      pattern; the digits captured are read as a number. */
  function Convert(argument: string): (r: Result<nat, string>)
    ensures r.Ok? ==> r.value < Pow10(21)
    ensures r.Err? ==> r.error == BadArgument(argument)
  {
    match MatchId(argument)
    case Some(digits) =>
      ValueBound(digits);
      assert Pow10(|digits|) <= Pow10(21) by { Pow10Monotone(|digits|, 21); }
      Ok(Value(digits))
    case None =>
      match MatchMention(argument)
      case Some(digits) =>
        ValueBound(digits);
        assert Pow10(|digits|) <= Pow10(21) by { Pow10Monotone(|digits|, 21); }
        Ok(Value(digits))
      case None => Err(BadArgument(argument))
  }

  /** `s` is a raw ID: a first run of 15 to 20 digits `d`, followed by text
      that does not continue the run unless `d` already has 20 digits. */
  ghost predicate IdForm(s: string, d: string, rest: string)
  {
    s == d + rest && AllDigits(d) && 15 <= |d| <= 20
    && (|d| == 20 || rest == [] || !IsDigit(rest[0]))
  }

  /** `s` is a mention: "<@", an optional "!", 15 to 21 digits `d`, ">", and
      then the end of the string or a final newline. */
  ghost predicate MentionForm(s: string, bang: bool, d: string, tail: string)
  {
    s == "<@" + (if bang then "!" else "") + d + ">" + tail
    && AllDigits(d) && 15 <= |d| <= 21 && AtEnd(tail)
  }

  lemma {:induction false} DigitRunAfterDigits(d: string, rest: string)
    requires AllDigits(d)
    ensures DigitRun(d + rest) == |d| + DigitRun(rest)
  {
    if d == [] {
      assert d + rest == rest;
    } else {
      assert (d + rest)[1..] == d[1..] + rest;
      DigitRunAfterDigits(d[1..], rest);
    }
  }

  /** A raw ID converts to the number its first run of digits (at most 20 of
      them) denotes, whatever text follows. */
  lemma ConvertId(s: string, d: string, rest: string)
    requires IdForm(s, d, rest)
    ensures Convert(s) == Ok(Value(d))
  {
    DigitRunAfterDigits(d, rest);
    assert s[..|d|] == d;
  }

  /** After "<@" and the optional "!", the mention pattern finds its
      digits, the ">" and the end. */
  lemma MentionBody(d: string, tail: string)
    requires AllDigits(d) && AtEnd(tail)
    ensures var body := d + ">" + tail;
      DigitRun(body) == |d| && |d| < |body| && body[|d|] == '>' && body[..|d|] == d && body[|d| + 1..] == tail
  {
    var body := d + ">" + tail;
    assert body == d + (">" + tail);
    DigitRunAfterDigits(d, ">" + tail);
  }

  /** A mention converts to the number its digits denote. */
  lemma ConvertMention(s: string, bang: bool, d: string, tail: string)
    requires MentionForm(s, bang, d, tail)
    ensures Convert(s) == Ok(Value(d))
  {
    var body := d + ">" + tail;
    MentionBody(d, tail);
    assert s[0] == '<' && s[..2] == "<@";
    assert MatchId(s) == None;
    if bang {
      assert s == "<@!" + body;
      assert s[2] == '!' && s[3..] == body;
    } else {
      assert s == "<@" + body;
      assert s[2] == d[0] && s[2..] == body;
    }
    assert MatchMention(s) == Some(d);
  }

  /** What the raw-ID pattern captures is the leading part of a raw ID. */
  lemma MatchIdSound(s: string)
    requires MatchId(s).Some?
    ensures exists rest :: IdForm(s, MatchId(s).value, rest)
  {
    var m := Min(DigitRun(s), 20);
    assert s == s[..m] + s[m..];
    assert IdForm(s, s[..m], s[m..]);
  }

  /** What the mention pattern captures is the ID of a mention. */
  lemma MatchMentionSound(s: string)
    requires MatchMention(s).Some?
    ensures exists bang, tail :: MentionForm(s, bang, MatchMention(s).value, tail)
  {
    var bang := |s| > 2 && s[2] == '!';
    var body := if bang then s[3..] else s[2..];
    var k := DigitRun(body);
    var d, tail := body[..k], body[k + 1..];
    assert body == d + ">" + tail by {
      assert body == body[..k] + [body[k]] + body[k + 1..];
    }
    assert s == "<@" + (if bang then "!" else "") + body by {
      assert s[..2] == "<@";
      if bang { assert s == s[..2] + [s[2]] + s[3..]; } else { assert s == s[..2] + s[2..]; }
    }
    assert MentionForm(s, bang, d, tail);
  }

  /** Nothing else converts: an accepted argument is a raw ID or a mention
      whose digits give the result. */
  lemma ConvertOnlyIdsAndMentions(s: string)
    requires Convert(s).Ok?
    ensures (exists d, rest :: IdForm(s, d, rest) && Convert(s).value == Value(d))
         || (exists bang, d, tail :: MentionForm(s, bang, d, tail) && Convert(s).value == Value(d))
  {
    if MatchId(s).Some? {
      MatchIdSound(s);
    } else {
      MatchMentionSound(s);
    }
  }

  /** The ID range the converter accepts, measured in digits. */
  lemma DigitCount(id: nat, lo: nat, hi: nat)
    requires 1 <= lo <= hi && Pow10(lo - 1) <= id < Pow10(hi)
    ensures lo <= |Digits(id)| <= hi
  {
    DigitsAtLeast(id, lo - 1);
    DigitsAtMost(id, hi);
  }

  /** Round trip: the decimal text of any 15- to 20-digit ID converts back
      to the ID, also when followed by text that does not start with a digit. */
  lemma ConvertIdText(id: nat, rest: string)
    requires Pow10(14) <= id < Pow10(20)
    requires rest == [] || !IsDigit(rest[0])
    ensures Convert(Digits(id) + rest) == Ok(id)
  {
    var d := Digits(id);
    DigitCount(id, 15, 20);
    ValueOfDigits(id);
    ConvertId(d + rest, d, rest);
  }

  /** Round trip: a mention built from any 15- to 21-digit ID, with or
      without the "!", converts back to the ID. */
  lemma ConvertMentionText(id: nat, bang: bool)
    requires Pow10(14) <= id < Pow10(21)
    ensures Convert("<@" + (if bang then "!" else "") + Digits(id) + ">") == Ok(id)
  {
    var d := Digits(id);
    DigitCount(id, 15, 21);
    ValueOfDigits(id);
    var s := "<@" + (if bang then "!" else "") + d + ">";
    assert s == "<@" + (if bang then "!" else "") + d + ">" + "";
    ConvertMention(s, bang, d, "");
  }

  /** A number with fewer than 15 digits is no ID, e.g. "123" is refused. */
  lemma ConvertRejectsShortNumber(s: string)
    requires AllDigits(s) && |s| < 15
    ensures Convert(s) == Err(BadArgument(s))
  {
    DigitRunAfterDigits(s, []);
    assert s + [] == s;
    if |s| >= 2 {
      assert s[..2][0] == s[0];
      assert IsDigit(s[0]);
    }
  }
}
