/**
 * The debug text of a configuration entry (`CookieConfig.String`): the name,
 * then eight comma-separated slots in a fixed order, each empty when its field
 * is unset and `label=value` otherwise.
 */
module ConfigText {
  import opened Wrappers
  import opened Cookies

  function DigitChar(d: nat): (ch: char)
    requires d < 10
    ensures '0' <= ch <= '9' && ch as int - '0' as int == d
  {
    ('0' as int + d) as char
  }

  predicate IsDigits(s: string)
  {
    forall i :: 0 <= i < |s| ==> '0' <= s[i] <= '9'
  }

  /** Decimal digits of `n`, most significant first, without leading zeros. */
  function NatToString(n: nat): (s: string)
    ensures |s| >= 1 && IsDigits(s)
    ensures n > 0 ==> s[0] != '0'
    decreases n
  {
    if n < 10 then [DigitChar(n)] else NatToString(n / 10) + [DigitChar(n % 10)]
  }

  /** Go's `%d` verb: a minus sign for negative numbers, then the digits. */
  function IntToString(n: int): (s: string)
    ensures |s| >= 1
    ensures s[0] == '-' <==> n < 0
  {
    if n < 0 then "-" + NatToString(-n) else NatToString(n)
  }

  /** The number a string of decimal digits denotes. */
  function DigitsValue(s: string): nat
    requires IsDigits(s)
  {
    if s == [] then 0 else DigitsValue(s[..|s| - 1]) * 10 + (s[|s| - 1] as int - '0' as int)
  }

  /** Reads back what `IntToString` prints. */
  function ParseInt(s: string): Option<int>
  {
    if |s| > 1 && s[0] == '-' && IsDigits(s[1..]) then Some(0 - DigitsValue(s[1..]) as int)
    else if |s| > 0 && IsDigits(s) then Some(DigitsValue(s))
    else None
  }

  lemma {:induction false} NatToStringValue(n: nat)
    ensures DigitsValue(NatToString(n)) == n
  {
    if n >= 10 {
      NatToStringValue(n / 10);
      var s := NatToString(n);
      assert s[..|s| - 1] == NatToString(n / 10);
    }
  }

  /** The `maxAge` slot loses nothing: its number can be read back. */
  lemma IntToStringRoundTrip(n: int)
    ensures ParseInt(IntToString(n)) == Some(n)
  {
    NatToStringValue(if n < 0 then -n else n);
    if n < 0 {
      assert IntToString(n)[1..] == NatToString(-n);
    }
  }

  /** Go's `%t` verb. */
  function BoolToString(b: bool): (s: string)
    ensures s == "true" <==> b
    ensures s == "false" <==> !b
  {
    if b then "true" else "false"
  }

  /** The slot labels, in the order in which the debug text lists them. */
  const Labels: seq<string> := ["value", "path", "domain", "expires", "maxAge", "secure", "httpOnly", "sameSite"]

  /** Which of the eight optional fields are set, in label order. */
  function Presence(c: CookieConfig): (p: seq<bool>)
    ensures |p| == 8
  {
    [c.value.Some?, c.path.Some?, c.domain.Some?, c.expires.Some?,
     c.maxAge.Some?, c.secure.Some?, c.httpOnly.Some?, c.sameSite.Some?]
  }

  /** `r` is the slot of field `key`: empty exactly when the field is unset, else `key=...`. */
  predicate ShowsSlot(r: string, key: string, isSet: bool)
  {
    && (r == "" <==> !isSet)
    && (isSet ==> |r| > |key| && r[..|key| + 1] == key + "=")
  }

  /** One slot: empty when the field is unset, `key=text` when it is set. */
  function Slot(key: string, text: Option<string>): (s: string)
    requires key != ""
    ensures ShowsSlot(s, key, text.Some?)
    ensures text.Some? ==> s[|key| + 1..] == text.value
  {
    if text.Some? then key + "=" + text.value else ""
  }

  /** The eight slots of an entry, in label order. */
  function Slots(c: CookieConfig, timeText: Instant -> string): (r: seq<string>)
    ensures |r| == 8
    ensures forall i :: 0 <= i < 8 ==> ShowsSlot(r[i], Labels[i], Presence(c)[i])
  {
    [Slot("value", c.value),
     Slot("path", c.path),
     Slot("domain", c.domain),
     Slot("expires", if c.expires.Some? then Some(timeText(c.expires.value)) else None),
     Slot("maxAge", if c.maxAge.Some? then Some(IntToString(c.maxAge.value)) else None),
     Slot("secure", if c.secure.Some? then Some(BoolToString(c.secure.value)) else None),
     Slot("httpOnly", if c.httpOnly.Some? then Some(BoolToString(c.httpOnly.value)) else None),
     Slot("sameSite", c.sameSite)]
  }

  /** `xs` separated by `sep`. */
  function Join(xs: seq<string>, sep: string): string
  {
    if |xs| == 0 then "" else if |xs| == 1 then xs[0]
    else Join(xs[..|xs| - 1], sep) + sep + xs[|xs| - 1]
  }

  lemma JoinSnoc(xs: seq<string>, x: string, sep: string)
    requires |xs| >= 1
    ensures Join(xs + [x], sep) == Join(xs, sep) + sep + x
  {
    assert (xs + [x])[..|xs|] == xs;
  }

  lemma JoinEight(r: seq<string>, sep: string)
    requires |r| == 8
    ensures Join(r, sep) == r[0] + sep + r[1] + sep + r[2] + sep + r[3] + sep + r[4] + sep
                            + r[5] + sep + r[6] + sep + r[7]
  {
    assert [r[0]] + [r[1]] == r[..2];
    JoinSnoc([r[0]], r[1], sep);
    assert r[..2] + [r[2]] == r[..3];
    JoinSnoc(r[..2], r[2], sep);
    assert r[..3] + [r[3]] == r[..4];
    JoinSnoc(r[..3], r[3], sep);
    assert r[..4] + [r[4]] == r[..5];
    JoinSnoc(r[..4], r[4], sep);
    assert r[..5] + [r[5]] == r[..6];
    JoinSnoc(r[..5], r[5], sep);
    assert r[..6] + [r[6]] == r[..7];
    JoinSnoc(r[..6], r[6], sep);
    assert r[..7] + [r[7]] == r;
    JoinSnoc(r[..7], r[7], sep);
  }

  const Prefix: string := "CookieConfig{name="

  /**
   * `CookieConfig.String`. `timeText` stands for `time.Time.String`, whose
   * formatting is not part of this model.
   */
  function ConfigString(c: CookieConfig, timeText: Instant -> string): (s: string)
    ensures s == Prefix + c.name + ", " + Join(Slots(c, timeText), ", ") + "}"
  {
    var value := Slot("value", c.value);
    var path := Slot("path", c.path);
    var domain := Slot("domain", c.domain);
    var expires := Slot("expires", if c.expires.Some? then Some(timeText(c.expires.value)) else None);
    var maxAge := Slot("maxAge", if c.maxAge.Some? then Some(IntToString(c.maxAge.value)) else None);
    var secure := Slot("secure", if c.secure.Some? then Some(BoolToString(c.secure.value)) else None);
    var httpOnly := Slot("httpOnly", if c.httpOnly.Some? then Some(BoolToString(c.httpOnly.value)) else None);
    var sameSite := Slot("sameSite", c.sameSite);
    var r := Slots(c, timeText);
    JoinEight(r, ", ");
    Prefix + c.name + ", " + (value + ", " + path + ", " + domain + ", " + expires + ", "
      + maxAge + ", " + secure + ", " + httpOnly + ", " + sameSite) + "}"
  }

  /** A name-only entry prints eight empty slots. */
  lemma NameOnlyString(name: string, timeText: Instant -> string)
    ensures ConfigString(NameOnly(name), timeText) == Prefix + name + ", , , , , , , , }"
  {
  }
}
