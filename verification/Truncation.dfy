/** The cap on tool output: a prefix of the text and a notice that counts what was omitted. */
module Truncation {
  import Text

  const NOTICE_HEAD := "...[Truncated: "
  const NOTICE_TAIL := " characters omitted]"

  function Digits(n: nat): nat {
    |Text.Decimal(n)|
  }

  function Suffix(omitted: nat): string {
    "\n\n" + NOTICE_HEAD + Text.Decimal(omitted) + NOTICE_TAIL
  }

  /** `_truncate_plain_text`. */
  function TruncatePlain(text: string, maxChars: nat): string {
    if |text| <= maxChars then text
    else
      var suffix := Suffix(|text| - maxChars);
      var head := maxChars - |suffix|;
      if head < 1 then Text.Strip(suffix) else text[..head] + suffix
  }

  /** `truncate_tool_return` on text; a cap that is not positive switches truncation off. */
  function Truncate(text: string, maxChars: int): string {
    if maxChars <= 0 then text else TruncatePlain(text, maxChars)
  }

  function Notice(omitted: nat): string {
    NOTICE_HEAD + Text.Decimal(omitted) + NOTICE_TAIL
  }

  /** The notice's words, around the decimal digits of the count. */
  lemma NoticeReads(omitted: nat)
    ensures Notice(omitted) == "...[Truncated: " + Text.Decimal(omitted) + " characters omitted]"
    ensures (forall c :: c in Text.Decimal(omitted) ==> '0' <= c <= '9') && Text.Value(Text.Decimal(omitted)) == omitted
  {
    Text.DecimalValue(omitted);
  }

  lemma NoticeLength(omitted: nat)
    ensures |Notice(omitted)| == 35 + Digits(omitted)
    ensures |Suffix(omitted)| == 37 + Digits(omitted)
    ensures Suffix(omitted) == "\n\n" + Notice(omitted)
  {
  }

  /** The notice alone is what stripping its two line breaks leaves. */
  lemma StrippedSuffix(omitted: nat)
    ensures Text.Strip(Suffix(omitted)) == Notice(omitted)
  {
    NoticeLength(omitted);
    var s, n := Suffix(omitted), Notice(omitted);
    assert s[0] == '\n' && s[1..][0] == '\n' && s[1..][1..] == n;
    assert n[0] == '.' && n[|n| - 1] == ']';
    assert Text.StripLeft(n, Text.IsSpace) == n;
    assert Text.StripLeft(s[1..], Text.IsSpace) == n;
    assert Text.StripLeft(s, Text.IsSpace) == n;
  }

  /**
   The size of what the model sees. A cap that leaves room for one character of text is met
   exactly, with a prefix of the text; a smaller one is not met: the notice stands alone.
   */
  lemma TruncationSize(text: string, maxChars: nat)
    requires 1 <= maxChars < |text|
    ensures var d, r := Digits(|text| - maxChars), TruncatePlain(text, maxChars);
            if maxChars >= 38 + d then
              |r| == maxChars && r == text[..maxChars - 37 - d] + "\n\n" + Notice(|text| - maxChars)
            else
              |r| == 35 + d && r == Notice(|text| - maxChars)
  {
    NoticeLength(|text| - maxChars);
    StrippedSuffix(|text| - maxChars);
  }

  /** A text over the cap never comes out as it went in unless it is its own notice. */
  lemma TruncationChanges(text: string, maxChars: nat)
    requires 1 <= maxChars < |text|
    ensures TruncatePlain(text, maxChars) == text <==> text == Notice(|text| - maxChars)
  {
    NoticeLength(|text| - maxChars);
    TruncationSize(text, maxChars);
  }

  /** The cap is respected exactly when the text fits or the bare notice does. */
  lemma CapRespected(text: string, maxChars: nat)
    requires maxChars >= 1
    ensures |TruncatePlain(text, maxChars)| <= maxChars
            <==> |text| <= maxChars || maxChars >= 35 + Digits(|text| - maxChars)
  {
    if |text| > maxChars {
      TruncationSize(text, maxChars);
    }
  }

  /** The count in the notice is the excess over the cap, not the characters really dropped. */
  lemma NoticeCount(text: string, maxChars: nat)
    requires 1 <= maxChars < |text| && maxChars >= 38 + Digits(|text| - maxChars)
    ensures var kept := maxChars - 37 - Digits(|text| - maxChars);
            && TruncatePlain(text, maxChars)[..kept] == text[..kept]
            && Text.Value(Text.Decimal(|text| - maxChars)) == |text| - maxChars
            && |text| - kept == (|text| - maxChars) + 37 + Digits(|text| - maxChars)
  {
    TruncationSize(text, maxChars);
    Text.DecimalValue(|text| - maxChars);
  }

  // ---- Repeated application -----------------------------------------------------------------

  function Repeat(text: string, maxChars: nat, times: nat): string
    decreases times
  {
    if times == 0 then text else Repeat(TruncatePlain(text, maxChars), maxChars, times - 1)
  }

  /** With room for text, once is enough. */
  lemma IdempotentWithRoom(text: string, maxChars: nat)
    requires maxChars >= 1
    requires |text| <= maxChars || maxChars >= 35 + Digits(|text| - maxChars)
    ensures TruncatePlain(TruncatePlain(text, maxChars), maxChars) == TruncatePlain(text, maxChars)
  {
    CapRespected(text, maxChars);
  }

  /** A number below 10^d has at most d digits; 34 + d is below 10^d from d = 2 on. */
  lemma {:induction false} DigitsShrink(d: nat)
    requires d >= 2
    ensures Digits(34 + d) <= d
  {
    if d == 2 {
      assert Digits(36) == 2;
    } else {
      DigitsShrink(d - 1);
      DigitsGrowSlowly(33 + d);
    }
  }

  /** Counting one further adds at most one digit. */
  lemma {:induction false} DigitsGrowSlowly(n: nat)
    ensures Digits(n + 1) <= Digits(n) + 1
  {
    if n >= 10 {
      assert (n + 1) / 10 <= n / 10 + 1;
      Text.DecimalMonotone((n + 1) / 10, n / 10 + 1);
      DigitsGrowSlowly(n / 10);
    }
  }

  lemma RepeatOnce(text: string, maxChars: nat, k: nat)
    ensures Repeat(text, maxChars, k + 1) == Repeat(TruncatePlain(text, maxChars), maxChars, k)
  {
  }

  lemma SettledNow(text: string, maxChars: nat, k: nat)
    requires |Repeat(text, maxChars, k)| <= maxChars
    ensures TruncatePlain(Repeat(text, maxChars, k), maxChars) == Repeat(text, maxChars, k)
  {
  }

  /** Whatever the cap, repeated truncation settles. */
  lemma {:induction false} RepeatSettles(text: string, maxChars: nat) returns (k: nat)
    requires maxChars >= 1
    ensures TruncatePlain(Repeat(text, maxChars, k), maxChars) == Repeat(text, maxChars, k)
    decreases if |text| <= maxChars then 0 else Digits(|text| - maxChars) + 2
  {
    var next := TruncatePlain(text, maxChars);
    RepeatOnce(text, maxChars, 0);
    assert Repeat(next, maxChars, 0) == next;
    if |text| <= maxChars {
      k := 0;
    } else if |next| <= maxChars {
      k := 1;
      SettledNow(text, maxChars, 1);
    } else if Digits(|next| - maxChars) < Digits(|text| - maxChars) {
      var j := RepeatSettles(next, maxChars);
      RepeatOnce(text, maxChars, j);
      k := j + 1;
    } else {
      k := SettlesAtEqualDigits(text, maxChars);
    }
  }

  /** Once the digit count stops shrinking, at most three applications are needed. */
  lemma SettlesAtEqualDigits(text: string, maxChars: nat) returns (k: nat)
    requires 1 <= maxChars < |text| && maxChars < |TruncatePlain(text, maxChars)|
    requires Digits(|TruncatePlain(text, maxChars)| - maxChars) >= Digits(|text| - maxChars)
    ensures TruncatePlain(Repeat(text, maxChars, k), maxChars) == Repeat(text, maxChars, k)
  {
    var one := TruncatePlain(text, maxChars);
    var two := TruncatePlain(one, maxChars);
    TruncationSize(text, maxChars);
    RepeatTwice(text, maxChars);
    if |two| <= maxChars {
      k := 2;
    } else if |one| == |two| {
      SameLengthSettles(one, maxChars);
      k := 2;
    } else {
      BareNotice(text, maxChars);
      LengthThirtySix(|text|, one, two, maxChars);
      RepeatTwice(one, maxChars);
      k := 3;
    }
  }

  lemma RepeatTwice(text: string, maxChars: nat)
    ensures Repeat(text, maxChars, 2) == TruncatePlain(TruncatePlain(text, maxChars), maxChars)
    ensures Repeat(text, maxChars, 3) == Repeat(TruncatePlain(text, maxChars), maxChars, 2)
  {
    var one := TruncatePlain(text, maxChars);
    var two := TruncatePlain(one, maxChars);
    assert Repeat(one, maxChars, 1) == Repeat(two, maxChars, 0) == two;
  }

  /** A result that exceeds the cap is the bare notice. */
  lemma BareNotice(text: string, maxChars: nat)
    requires 1 <= maxChars < |text| && maxChars < |TruncatePlain(text, maxChars)|
    ensures TruncatePlain(text, maxChars) == Notice(|text| - maxChars)
    ensures |TruncatePlain(text, maxChars)| == 35 + Digits(|text| - maxChars)
  {
    TruncationSize(text, maxChars);
  }

  lemma BareAgain(text: string, maxChars: nat)
    requires 1 <= maxChars < |text|
    requires maxChars < 35 + Digits(|text| - maxChars)
    ensures TruncatePlain(text, maxChars) == Notice(|text| - maxChars)
  {
    NoticeLength(|text| - maxChars);
    TruncationSize(text, maxChars);
  }

  /** Two texts of one length get the same notice. */
  lemma SameLengthSettles(one: string, maxChars: nat)
    requires 1 <= maxChars < |one| == |TruncatePlain(one, maxChars)|
    ensures var two := TruncatePlain(one, maxChars); TruncatePlain(two, maxChars) == two
  {
    BareNotice(one, maxChars);
    var two := Notice(|one| - maxChars);
    assert two == TruncatePlain(one, maxChars);
    BareAgain(two, maxChars);
  }

  /** Only a one-digit count can be followed by a longer one, and then by two digits for good. */
  lemma NoticeLengths(a: nat, b: nat, c: nat, maxChars: nat)
    requires 1 <= maxChars < a && maxChars < b && maxChars < c && b != c
    requires b == 35 + Digits(a - maxChars) && c == 35 + Digits(b - maxChars)
    requires Digits(b - maxChars) >= Digits(a - maxChars)
    ensures 35 + Digits(c - maxChars) == c
  {
    var d := Digits(a - maxChars);
    Text.DecimalMonotone(b - maxChars, 34 + d);
    if d >= 2 {
      DigitsShrink(d);
    }
    assert d == 1 && Digits(35) == 2 && Digits(36) == 2;
    Text.DecimalMonotone(c - maxChars, 36);
    Text.DecimalMonotone(b - maxChars, c - maxChars);
  }

  /** A text as long as its notice settles at once. */
  lemma ThirdSettles(two: string, maxChars: nat)
    requires 1 <= maxChars < |two| && 35 + Digits(|two| - maxChars) == |two|
    ensures var three := TruncatePlain(two, maxChars); TruncatePlain(three, maxChars) == three
  {
    var three := TruncatePlain(two, maxChars);
    if maxChars < |three| {
      BareNotice(two, maxChars);
      SameLengthSettles(two, maxChars);
    }
  }

  lemma LengthThirtySix(a: nat, one: string, two: string, maxChars: nat)
    requires 1 <= maxChars < a && maxChars < |one| && maxChars < |two| && |one| != |two|
    requires |one| == 35 + Digits(a - maxChars) && two == TruncatePlain(one, maxChars)
    requires Digits(|one| - maxChars) >= Digits(a - maxChars)
    ensures var three := TruncatePlain(two, maxChars); TruncatePlain(three, maxChars) == three
  {
    BareNotice(one, maxChars);
    NoticeLengths(a, |one|, |two|, maxChars);
    ThirdSettles(two, maxChars);
  }
}
