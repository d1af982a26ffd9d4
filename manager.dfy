/**
 * The cookie rewriting of `CookieManager.ServeHTTP`: convert the `adder` and
 * `remover` entries to cookies, lay the adders over the request's cookies,
 * then lay the removers over the result. A remover deletes nothing: it is an
 * overlay like an adder.
 */
module Manager {
  import opened Wrappers
  import opened Cookies
  import opened Merge

  /** The plugin configuration: the `adder` and `remover` lists. */
  datatype Config = Config(adder: seq<CookieConfig>, remover: seq<CookieConfig>)

  function ConfigNames(cfgs: seq<CookieConfig>): set<string>
  {
    set i | 0 <= i < |cfgs| :: cfgs[i].name
  }

  /** The entries converted one by one, in order. */
  function Converted(cfgs: seq<CookieConfig>): (r: seq<Cookie>)
    ensures |r| == |cfgs|
    ensures forall i :: 0 <= i < |cfgs| ==> r[i] == ToHttpCookie(cfgs[i])
    decreases |cfgs|
  {
    if cfgs == [] then [] else Converted(cfgs[..|cfgs| - 1]) + [ToHttpCookie(cfgs[|cfgs| - 1])]
  }

  lemma ConvertedNames(cfgs: seq<CookieConfig>)
    ensures Names(Converted(cfgs)) == ConfigNames(cfgs)
  {
    var r := Converted(cfgs);
    forall n | n in Names(r) ensures n in ConfigNames(cfgs) {
      var i :| 0 <= i < |r| && r[i].name == n;
      assert cfgs[i].name == n;
    }
    forall n | n in ConfigNames(cfgs) ensures n in Names(r) {
      var i :| 0 <= i < |cfgs| && cfgs[i].name == n;
      assert r[i].name == n;
    }
  }

  /** The jar the request leaves with: adders over the request, then removers over that. */
  function RewrittenJar(config: Config, cookies: seq<Cookie>): Jar
  {
    Fold(Fold(ToJar(cookies), Converted(config.adder)), Converted(config.remover))
  }

  /**
   * The cookie part of `ServeHTTP` for one request whose `Cookie` header
   * parsed to `cookies`: the list of cookies that is put back on the request.
   */
  method RewriteCookies(config: Config, cookies: seq<Cookie>) returns (jar: seq<Cookie>)
    ensures ToJar(jar) == RewrittenJar(config, cookies)
    ensures DistinctNames(jar)
    ensures Names(jar) == Names(cookies) + ConfigNames(config.adder) + ConfigNames(config.remover)
    ensures |jar| == |Names(cookies) + ConfigNames(config.adder) + ConfigNames(config.remover)|
    ensures |jar| >= |Names(cookies) + ConfigNames(config.adder)|
  {
    var adderCookies: seq<Cookie> := [];
    for i := 0 to |config.adder|
      invariant adderCookies == Converted(config.adder[..i])
    {
      assert config.adder[..i + 1][..i] == config.adder[..i];
      adderCookies := adderCookies + [ToHttpCookie(config.adder[i])];
    }
    assert config.adder[..|config.adder|] == config.adder;

    var removerCookies: seq<Cookie> := [];
    for i := 0 to |config.remover|
      invariant removerCookies == Converted(config.remover[..i])
    {
      assert config.remover[..i + 1][..i] == config.remover[..i];
      removerCookies := removerCookies + [ToHttpCookie(config.remover[i])];
    }
    assert config.remover[..|config.remover|] == config.remover;

    var mergedAdded := MergeCookies(cookies, adderCookies);
    jar := MergeCookies(mergedAdded, removerCookies);
    ConvertedNames(config.adder);
    ConvertedNames(config.remover);
  }

  /** Adders then removers is one overlay pass over the two lists joined. */
  lemma RewriteIsOnePass(config: Config, cookies: seq<Cookie>)
    ensures RewrittenJar(config, cookies)
         == Fold(ToJar(cookies), Converted(config.adder) + Converted(config.remover))
  {
    FoldAppend(ToJar(cookies), Converted(config.adder), Converted(config.remover));
  }

  /**
   * A field a configuration entry leaves unset never changes the cookie it
   * is laid over; neither does an explicit `false`, `""` or 0.
   */
  lemma UnsetFieldsKeep(base: Cookie, c: CookieConfig)
    ensures var r := Overlay(base, ToHttpCookie(c));
      && (c.value.None? || c.value == Some("") ==> r.value == base.value)
      && (c.path.None? || c.path == Some("") ==> r.path == base.path)
      && (c.domain.None? || c.domain == Some("") ==> r.domain == base.domain)
      && (c.expires.None? || c.expires == Some(0) ==> r.expires == base.expires)
      && (c.maxAge.None? || c.maxAge == Some(0) ==> r.maxAge == base.maxAge)
      && (c.secure.None? || c.secure == Some(false) ==> r.secure == base.secure)
      && (c.httpOnly.None? || c.httpOnly == Some(false) ==> r.httpOnly == base.httpOnly)
      && (c.sameSite.None? ==> r.sameSite == base.sameSite)
  {
  }

  /** A set SameSite text always overrides, whatever the text. */
  lemma SetSameSiteOverrides(base: Cookie, c: CookieConfig)
    requires c.sameSite.Some?
    ensures Overlay(base, ToHttpCookie(c)).sameSite == SamesiteFromString(c.sameSite.value)
  {
  }

  /** Name-only removers for names the request or the adders already have change nothing. */
  lemma NameOnlyRemoversAreNoOps(config: Config, cookies: seq<Cookie>)
    requires forall i :: 0 <= i < |config.remover| ==> config.remover[i] == NameOnly(config.remover[i].name)
    requires ConfigNames(config.remover) <= Names(cookies) + ConfigNames(config.adder)
    ensures RewrittenJar(config, cookies) == Fold(ToJar(cookies), Converted(config.adder))
  {
    var added := Fold(ToJar(cookies), Converted(config.adder));
    var removers := Converted(config.remover);
    ConvertedNames(config.adder);
    forall k | 0 <= k < |removers| ensures IsAllDefault(removers[k]) && removers[k].name in added {
      NameOnlyIsZeroCookie(config.remover[k].name);
      assert config.remover[k].name in ConfigNames(config.remover);
    }
    FoldAllDefault(added, removers);
  }

  // ---------------------------------------------------------------------
  // The three request scenarios of the repository's tests

  /** The entry of the tests: every field set, SameSite "strict". */
  function TestingConfig(): CookieConfig
  {
    CookieConfig("test1", Some("foo"), Some("/"), Some("localhost"), Some(1391558400),
                 Some(3600), Some(true), Some(true), Some("strict"))
  }

  /**
   * A cookie as parsed from the request's `Cookie` header, which carries only
   * `name=value`: every other field is at its zero value.
   */
  function RequestCookie(name: string, value: string): (k: Cookie)
    ensures k == ZeroCookie(name).(value := value)
  {
    Cookie(name, value, "", "", 0, 0, false, false, Unset)
  }

  /** A remover whose name matches overwrites the value: "value1|foo" becomes "foo". */
  lemma RemoverOverwritesMatchingCookie()
    ensures var j := RewrittenJar(Config([], [TestingConfig()]),
                                  [RequestCookie("test1", "value1|foo"), RequestCookie("test2", "value2")]);
      && j.Keys == {"test1", "test2"}
      && j["test1"] == ToHttpCookie(TestingConfig())
      && j["test1"].value == "foo"
      && j["test2"] == RequestCookie("test2", "value2")
  {
    var cookies := [RequestCookie("test1", "value1|foo"), RequestCookie("test2", "value2")];
    assert cookies[..1] == [cookies[0]];
    assert Converted([]) == [];
    assert Converted([TestingConfig()]) == [ToHttpCookie(TestingConfig())];
  }

  /** An adder with a new name is inserted; the request's cookies are kept. */
  lemma AdderInsertsNewCookie()
    ensures var j := RewrittenJar(Config([TestingConfig()], []),
                                  [RequestCookie("test2", "value1"), RequestCookie("test3", "value2")]);
      && j.Keys == {"test1", "test2", "test3"}
      && j["test1"] == ToHttpCookie(TestingConfig())
      && j["test2"] == RequestCookie("test2", "value1")
      && j["test3"] == RequestCookie("test3", "value2")
  {
    var cookies := [RequestCookie("test2", "value1"), RequestCookie("test3", "value2")];
    assert cookies[..1] == [cookies[0]];
    assert Converted([]) == [];
    assert Converted([TestingConfig()]) == [ToHttpCookie(TestingConfig())];
  }

  /** An adder with a known name overwrites that cookie's set fields. */
  lemma AdderUpdatesExistingCookie()
    ensures var j := RewrittenJar(Config([TestingConfig()], []),
                                  [RequestCookie("test1", "value1"), RequestCookie("test2", "value2")]);
      && j.Keys == {"test1", "test2"}
      && j["test1"].value == "foo"
      && j["test2"] == RequestCookie("test2", "value2")
  {
    var cookies := [RequestCookie("test1", "value1"), RequestCookie("test2", "value2")];
    assert cookies[..1] == [cookies[0]];
    assert Converted([]) == [];
    assert Converted([TestingConfig()]) == [ToHttpCookie(TestingConfig())];
  }
}
