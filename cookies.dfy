/**
 * The two cookie records of the middleware: the configured `CookieConfig`,
 * whose optional fields are Go pointers (here `Option`), and the `http.Cookie`
 * it is converted to, whose fields are plain values with Go's zero values
 * ("" , 0, false, the zero time, SameSite 0).
 */
module Cookies {
  import opened Wrappers

  /**
   * Go's `http.SameSite`, an int: `Unset` is the zero value 0, which no
   * constant names; `DefaultMode` is 1, `LaxMode` 2, `StrictMode` 3 and
   * `NoneMode` 4.
   */
  datatype SameSite = Unset | DefaultMode | LaxMode | StrictMode | NoneMode

  /** A point in time, kept abstract; 0 stands for Go's zero `time.Time`. */
  type Instant = int

  predicate IsZeroTime(t: Instant) { t == 0 }

  /** The fields of `http.Cookie` that the middleware reads or writes. */
  datatype Cookie = Cookie(
    name: string,
    value: string,
    path: string,
    domain: string,
    expires: Instant,
    maxAge: int,
    secure: bool,
    httpOnly: bool,
    sameSite: SameSite)

  /** `http.Cookie{Name: name}`: every other field at its zero value. */
  function ZeroCookie(name: string): (k: Cookie)
    ensures k.name == name && k.value == "" && k.path == "" && k.domain == ""
    ensures IsZeroTime(k.expires) && k.maxAge == 0 && !k.secure && !k.httpOnly
    ensures k.sameSite == Unset
  {
    Cookie(name, "", "", "", 0, 0, false, false, Unset)
  }

  /** One entry of the `adder` or `remover` configuration list. */
  datatype CookieConfig = CookieConfig(
    name: string,
    value: Option<string>,
    path: Option<string>,
    domain: Option<string>,
    expires: Option<Instant>,
    maxAge: Option<int>,
    secure: Option<bool>,
    httpOnly: Option<bool>,
    sameSite: Option<string>)

  /** A configuration entry that gives only a name. */
  function NameOnly(name: string): CookieConfig
  {
    CookieConfig(name, None, None, None, None, None, None, None, None)
  }

  /**
   * The configured SameSite text as a mode: the three known words, and the
   * default mode for every other text (which is not the zero value).
   */
  function SamesiteFromString(s: string): (m: SameSite)
    ensures m != Unset
    ensures m == LaxMode <==> s == "lax"
    ensures m == StrictMode <==> s == "strict"
    ensures m == NoneMode <==> s == "none"
    ensures m == DefaultMode <==> s != "lax" && s != "strict" && s != "none"
  {
    match s
    case "lax" => LaxMode
    case "strict" => StrictMode
    case "none" => NoneMode
    case _ => DefaultMode
  }

  /** A configuration text for each mode that a configuration can produce. */
  function SameSiteText(m: SameSite): (s: string)
    requires m != Unset
    ensures SamesiteFromString(s) == m
  {
    match m
    case DefaultMode => "default"
    case LaxMode => "lax"
    case StrictMode => "strict"
    case NoneMode => "none"
  }

  /** The value an optional field holds, or `zero` when it is unset. */
  function Or<T>(o: Option<T>, zero: T): T
  {
    if o.Some? then o.value else zero
  }

  /**
   * Conversion of a configuration entry: the cookie takes the entry's name,
   * each field the entry sets, and Go's zero value for each field it leaves
   * unset; a set SameSite text goes through `SamesiteFromString`.
   */
  function ToHttpCookie(c: CookieConfig): (k: Cookie)
    ensures k.name == c.name
    ensures c.value.Some? ==> k.value == c.value.value
    ensures c.path.Some? ==> k.path == c.path.value
    ensures c.domain.Some? ==> k.domain == c.domain.value
    ensures c.expires.Some? ==> k.expires == c.expires.value
    ensures c.maxAge.Some? ==> k.maxAge == c.maxAge.value
    ensures c.secure.Some? ==> k.secure == c.secure.value
    ensures c.httpOnly.Some? ==> k.httpOnly == c.httpOnly.value
    ensures c.sameSite.Some? ==> k.sameSite == SamesiteFromString(c.sameSite.value)
    ensures c.value.None? ==> k.value == ZeroCookie(c.name).value
    ensures c.path.None? ==> k.path == ZeroCookie(c.name).path
    ensures c.domain.None? ==> k.domain == ZeroCookie(c.name).domain
    ensures c.expires.None? ==> k.expires == ZeroCookie(c.name).expires
    ensures c.maxAge.None? ==> k.maxAge == ZeroCookie(c.name).maxAge
    ensures c.secure.None? ==> k.secure == ZeroCookie(c.name).secure
    ensures c.httpOnly.None? ==> k.httpOnly == ZeroCookie(c.name).httpOnly
    ensures c.sameSite.None? ==> k.sameSite == ZeroCookie(c.name).sameSite
  {
    var zero := ZeroCookie(c.name);
    Cookie(c.name, Or(c.value, zero.value), Or(c.path, zero.path), Or(c.domain, zero.domain),
           Or(c.expires, zero.expires), Or(c.maxAge, zero.maxAge), Or(c.secure, zero.secure),
           Or(c.httpOnly, zero.httpOnly),
           if c.sameSite.Some? then SamesiteFromString(c.sameSite.value) else zero.sameSite)
  }

  /** A configuration entry that sets every field of `k` explicitly. */
  function FullConfig(k: Cookie): (c: CookieConfig)
    requires k.sameSite != Unset
    ensures c.name == k.name
    ensures c.value.Some? && c.path.Some? && c.domain.Some? && c.expires.Some?
    ensures c.maxAge.Some? && c.secure.Some? && c.httpOnly.Some? && c.sameSite.Some?
  {
    CookieConfig(k.name, Some(k.value), Some(k.path), Some(k.domain), Some(k.expires),
                 Some(k.maxAge), Some(k.secure), Some(k.httpOnly), Some(SameSiteText(k.sameSite)))
  }

  /** A name-only entry converts to the all-zero cookie of that name. */
  lemma NameOnlyIsZeroCookie(name: string)
    ensures ToHttpCookie(NameOnly(name)) == ZeroCookie(name)
  {
  }

  /**
   * Every cookie whose SameSite is not the zero value is what some entry
   * converts to: the fully set entry for it.
   */
  lemma FullConfigRoundTrip(k: Cookie)
    requires k.sameSite != Unset
    ensures ToHttpCookie(FullConfig(k)) == k
  {
  }

  /** No entry converts to a cookie with a set SameSite field of zero. */
  lemma SetSameSiteNeverZero(c: CookieConfig)
    requires c.sameSite.Some?
    ensures ToHttpCookie(c).sameSite != Unset
  {
  }
}
