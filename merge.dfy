/**
 * `MergeCookies`: cookies of a second list are laid over a name-keyed jar
 * built from a first list. A new name is inserted as it is; an existing name
 * takes only the fields that are not at their zero value on the overlay.
 */
module Merge {
  import opened Wrappers
  import opened Cookies

  /** Cookies keyed by name (`c1Map`). */
  type Jar = map<string, Cookie>

  /** Every entry of the jar is filed under its own name. */
  predicate WellKeyed(j: Jar)
  {
    forall n :: n in j ==> j[n].name == n
  }

  function Names(s: seq<Cookie>): set<string>
  {
    set i | 0 <= i < |s| :: s[i].name
  }

  predicate DistinctNames(s: seq<Cookie>)
  {
    forall i, k :: 0 <= i < k < |s| ==> s[i].name != s[k].name
  }

  /** A cookie every field of which (besides the name) is at its zero value. */
  predicate IsAllDefault(o: Cookie)
  {
    o == ZeroCookie(o.name)
  }

  /** A text field of the overlay wins unless it is empty. */
  function OverlayText(base: string, over: string): (r: string)
    ensures over != "" ==> r == over
    ensures over == "" ==> r == base
  {
    if over != "" then over else base
  }

  /** An integer field of the overlay wins unless it is 0. */
  function OverlayInt(base: int, over: int): (r: int)
    ensures over != 0 ==> r == over
    ensures over == 0 ==> r == base
  {
    if over != 0 then over else base
  }

  /** A flag of the overlay wins only when it is `true`: it can set a flag, never clear one. */
  function OverlayFlag(base: bool, over: bool): (r: bool)
    ensures r == (base || over)
  {
    if over then over else base
  }

  /** The overlay's SameSite wins unless it is the zero value. */
  function OverlaySameSite(base: SameSite, over: SameSite): (r: SameSite)
    ensures over != Unset ==> r == over
    ensures over == Unset ==> r == base
  {
    if over != Unset then over else base
  }

  /**
   * The field-wise override applied to a cookie that is already in the jar:
   * a field of the overlay wins when it is non-empty, non-zero, `true` or a
   * SameSite other than 0; otherwise the base field stays.
   */
  function Overlay(base: Cookie, o: Cookie): (r: Cookie)
    ensures r.name == base.name
    ensures o.value != "" ==> r.value == o.value
    ensures o.value == "" ==> r.value == base.value
    ensures o.path != "" ==> r.path == o.path
    ensures o.path == "" ==> r.path == base.path
    ensures o.domain != "" ==> r.domain == o.domain
    ensures o.domain == "" ==> r.domain == base.domain
    ensures !IsZeroTime(o.expires) ==> r.expires == o.expires
    ensures IsZeroTime(o.expires) ==> r.expires == base.expires
    ensures o.maxAge != 0 ==> r.maxAge == o.maxAge
    ensures o.maxAge == 0 ==> r.maxAge == base.maxAge
    ensures r.secure == (base.secure || o.secure)
    ensures r.httpOnly == (base.httpOnly || o.httpOnly)
    ensures o.sameSite != Unset ==> r.sameSite == o.sameSite
    ensures o.sameSite == Unset ==> r.sameSite == base.sameSite
  {
    Cookie(base.name,
           OverlayText(base.value, o.value),
           OverlayText(base.path, o.path),
           OverlayText(base.domain, o.domain),
           OverlayInt(base.expires, o.expires),
           OverlayInt(base.maxAge, o.maxAge),
           OverlayFlag(base.secure, o.secure),
           OverlayFlag(base.httpOnly, o.httpOnly),
           OverlaySameSite(base.sameSite, o.sameSite))
  }

  /** The jar `c1Map` after the first loop: the last cookie of each name wins. */
  function ToJar(s: seq<Cookie>): (j: Jar)
    ensures j.Keys == Names(s)
    ensures WellKeyed(j)
    decreases |s|
  {
    if s == [] then map[]
    else
      var last := s[|s| - 1];
      NamesSnoc(s);
      ToJar(s[..|s| - 1])[last.name := last]
  }

  /** One iteration of the second loop: insert a new name, overlay a known one. */
  function Apply(j: Jar, o: Cookie): (r: Jar)
    ensures r.Keys == j.Keys + {o.name}
    ensures forall n :: n in j && n != o.name ==> r[n] == j[n]
  {
    if o.name in j then j[o.name := Overlay(j[o.name], o)] else j[o.name := o]
  }

  /** The second loop: `Apply` each cookie of `s`, first to last. */
  function Fold(j: Jar, s: seq<Cookie>): (r: Jar)
    ensures r.Keys == j.Keys + Names(s)
    ensures WellKeyed(j) ==> WellKeyed(r)
    decreases |s|
  {
    if s == [] then j
    else
      NamesSnoc(s);
      Apply(Fold(j, s[..|s| - 1]), s[|s| - 1])
  }

  /** The jar `MergeCookies(c1, c2)` returns the values of. */
  function MergeSpec(c1: seq<Cookie>, c2: seq<Cookie>): Jar
  {
    Fold(ToJar(c1), c2)
  }

  lemma NamesSnoc(s: seq<Cookie>)
    requires |s| > 0
    ensures Names(s) == Names(s[..|s| - 1]) + {s[|s| - 1].name}
  {
    var init := s[..|s| - 1];
    forall n | n in Names(s) ensures n in Names(init) + {s[|s| - 1].name} {
      var i :| 0 <= i < |s| && s[i].name == n;
      if i < |s| - 1 {
        assert init[i].name == n;
      }
    }
    forall n | n in Names(init) ensures n in Names(s) {
      var i :| 0 <= i < |init| && init[i].name == n;
      assert s[i].name == n;
    }
  }

  lemma {:induction false} DistinctNamesCount(s: seq<Cookie>)
    requires DistinctNames(s)
    ensures |Names(s)| == |s|
  {
    if s != [] {
      var init := s[..|s| - 1];
      DistinctNamesCount(init);
      NamesSnoc(s);
    }
  }

  lemma SubsetCount(a: set<string>, b: set<string>)
    requires a <= b
    ensures |a| <= |b|
  {
    assert b == a + (b - a);
    assert a * (b - a) == {};
  }

  /** The cookie a name ends up with in `ToJar(s)` is the last one of that name in `s`. */
  lemma {:induction false} ToJarLastWins(s: seq<Cookie>, i: int)
    requires 0 <= i < |s|
    requires forall k :: i < k < |s| ==> s[k].name != s[i].name
    ensures s[i].name in ToJar(s) && ToJar(s)[s[i].name] == s[i]
  {
    if i < |s| - 1 {
      ToJarLastWins(s[..|s| - 1], i);
    }
  }

  /** A list without repeated names is exactly the jar that holds its cookies. */
  lemma ToJarOfDistinct(s: seq<Cookie>, m: Jar)
    requires DistinctNames(s)
    requires Names(s) == m.Keys
    requires forall k :: 0 <= k < |s| ==> s[k].name in m && m[s[k].name] == s[k]
    ensures ToJar(s) == m
  {
    forall n | n in m ensures ToJar(s)[n] == m[n] {
      var k :| 0 <= k < |s| && s[k].name == n;
      ToJarLastWins(s, k);
    }
  }

  /**
   * The in-place update of a cookie already in the jar: each field of
   * `cookie` that is not at its zero value replaces the existing one.
   */
  method OverrideFields(existing: Cookie, cookie: Cookie) returns (updated: Cookie)
    ensures updated == Overlay(existing, cookie)
  {
    var value, path, domain := existing.value, existing.path, existing.domain;
    var expires, maxAge := existing.expires, existing.maxAge;
    var secure, httpOnly, sameSite := existing.secure, existing.httpOnly, existing.sameSite;
    if cookie.value != "" {
      value := cookie.value;
    }
    if cookie.path != "" {
      path := cookie.path;
    }
    if cookie.domain != "" {
      domain := cookie.domain;
    }
    if !IsZeroTime(cookie.expires) {
      expires := cookie.expires;
    }
    if cookie.maxAge != 0 {
      maxAge := cookie.maxAge;
    }
    if cookie.secure {
      secure := cookie.secure;
    }
    if cookie.httpOnly {
      httpOnly := cookie.httpOnly;
    }
    if cookie.sameSite != Unset {
      sameSite := cookie.sameSite;
    }
    updated := Cookie(existing.name, value, path, domain, expires, maxAge, secure, httpOnly, sameSite);
  }

  /**
   * The cookies of a jar as a list, one per name, in an unspecified order
   * (the order in which Go happens to iterate over the map).
   */
  method JarCookies(m: Jar) returns (c: seq<Cookie>)
    requires WellKeyed(m)
    ensures ToJar(c) == m
    ensures DistinctNames(c)
  {
    c := [];
    var rest := m.Keys;
    while rest != {}
      invariant rest <= m.Keys
      invariant DistinctNames(c)
      invariant Names(c) == m.Keys - rest
      invariant forall k :: 0 <= k < |c| ==> c[k].name in m && m[c[k].name] == c[k]
      decreases rest
    {
      var name :| name in rest;
      NamesSnoc(c + [m[name]]);
      assert (c + [m[name]])[..|c|] == c;
      c := c + [m[name]];
      rest := rest - {name};
    }
    ToJarOfDistinct(c, m);
  }

  /**
   * `MergeCookies`: build the jar from `c1`, lay each cookie of `c2` over it
   * in turn, then list the jar's cookies in an unspecified order (Go's map
   * iteration order), one per name.
   */
  method MergeCookies(c1: seq<Cookie>, c2: seq<Cookie>) returns (c: seq<Cookie>)
    ensures ToJar(c) == MergeSpec(c1, c2)
    ensures DistinctNames(c)
    ensures Names(c) == Names(c1) + Names(c2)
    ensures |c| == |Names(c1) + Names(c2)|
    ensures |c| >= |Names(c1)|
  {
    var m: Jar := map[];
    for i := 0 to |c1|
      invariant m == ToJar(c1[..i])
    {
      assert c1[..i + 1][..i] == c1[..i];
      m := m[c1[i].name := c1[i]];
    }
    assert c1[..|c1|] == c1;

    for i := 0 to |c2|
      invariant m == Fold(ToJar(c1), c2[..i])
    {
      assert c2[..i + 1][..i] == c2[..i];
      var cookie := c2[i];
      if cookie.name !in m {
        m := m[cookie.name := cookie];
      } else {
        var existing := OverrideFields(m[cookie.name], cookie);
        m := m[cookie.name := existing];
      }
    }
    assert c2[..|c2|] == c2;

    c := JarCookies(m);
    DistinctNamesCount(c);
    SubsetCount(Names(c1), Names(c1) + Names(c2));
  }

  // ---------------------------------------------------------------------
  // What the merge does to one name

  function Get(j: Jar, n: string): Option<Cookie>
  {
    if n in j then Some(j[n]) else None
  }

  /** Jars that agree on every name are equal. */
  lemma JarsEqual(a: Jar, b: Jar)
    requires forall n :: Get(a, n) == Get(b, n)
    ensures a == b
  {
    forall n | n in a ensures n in b && a[n] == b[n] {
      assert Get(a, n) == Get(b, n);
    }
    forall n | n in b ensures n in a {
      assert Get(a, n) == Get(b, n);
    }
  }

  /** The cookies of `s` named `n`, in order. */
  function WithName(s: seq<Cookie>, n: string): (r: seq<Cookie>)
    ensures forall k :: 0 <= k < |r| ==> r[k].name == n
    ensures |r| <= |s|
    decreases |s|
  {
    if s == [] then []
    else WithName(s[..|s| - 1], n) + (if s[|s| - 1].name == n then [s[|s| - 1]] else [])
  }

  lemma {:induction false} WithNameEmpty(s: seq<Cookie>, n: string)
    ensures WithName(s, n) == [] <==> n !in Names(s)
  {
    if s != [] {
      WithNameEmpty(s[..|s| - 1], n);
      NamesSnoc(s);
    }
  }

  lemma {:induction false} WithNameDistinct(s: seq<Cookie>, n: string)
    requires DistinctNames(s)
    ensures |WithName(s, n)| <= 1
  {
    if s != [] {
      var init := s[..|s| - 1];
      WithNameDistinct(init, n);
      if s[|s| - 1].name == n {
        WithNameEmpty(init, n);
        assert n !in Names(init) by {
          forall i | 0 <= i < |init| ensures init[i].name != n {
            assert init[i] == s[i];
          }
        }
      }
    }
  }

  /** One overlay step for one name: insert when absent, overlay when present. */
  function Step(acc: Option<Cookie>, o: Cookie): Cookie
  {
    if acc.Some? then Overlay(acc.value, o) else o
  }

  /** The steps for one name, first to last, from what the jar held before. */
  function Settle(acc: Option<Cookie>, s: seq<Cookie>): (r: Option<Cookie>)
    ensures s == [] ==> r == acc
    ensures s != [] ==> r.Some?
    decreases |s|
  {
    if s == [] then acc else Some(Step(Settle(acc, s[..|s| - 1]), s[|s| - 1]))
  }

  /**
   * The merge works name by name: what a name holds afterwards depends only on
   * what it held before and on the cookies of that name in the overlay list.
   */
  lemma {:induction false} FoldAt(j: Jar, s: seq<Cookie>, n: string)
    ensures Get(Fold(j, s), n) == Settle(Get(j, n), WithName(s, n))
  {
    if s != [] {
      var init, last := s[..|s| - 1], s[|s| - 1];
      FoldAt(j, init, n);
      var w := WithName(init, n);
      if last.name == n {
        assert (w + [last])[..|w + [last]| - 1] == w;
      } else {
        assert w + [] == w;
      }
    }
  }

  /** A name the overlay list does not mention keeps its cookie from `c1`. */
  lemma MergeKeepsUnmentioned(c1: seq<Cookie>, c2: seq<Cookie>, n: string)
    requires n !in Names(c2)
    ensures Get(MergeSpec(c1, c2), n) == Get(ToJar(c1), n)
  {
    FoldAt(ToJar(c1), c2, n);
    WithNameEmpty(c2, n);
  }

  /** A name only the overlay list has, and only once, comes out exactly as given. */
  lemma MergeInsertsNew(c1: seq<Cookie>, c2: seq<Cookie>, o: Cookie)
    requires o.name !in Names(c1)
    requires WithName(c2, o.name) == [o]
    ensures o.name in MergeSpec(c1, c2) && MergeSpec(c1, c2)[o.name] == o
  {
    FoldAt(ToJar(c1), c2, o.name);
    assert [o][..0] == [];
  }

  /** A name both lists have, the overlay list once, gets the field-wise overlay. */
  lemma MergeOverlaysExisting(c1: seq<Cookie>, c2: seq<Cookie>, o: Cookie)
    requires o.name in Names(c1)
    requires WithName(c2, o.name) == [o]
    ensures o.name in MergeSpec(c1, c2)
    ensures MergeSpec(c1, c2)[o.name] == Overlay(ToJar(c1)[o.name], o)
  {
    FoldAt(ToJar(c1), c2, o.name);
    assert [o][..0] == [];
  }

  /** Laying an all-default cookie over an existing one changes nothing. */
  lemma OverlayAllDefault(base: Cookie, o: Cookie)
    requires IsAllDefault(o)
    ensures Overlay(base, o) == base
  {
  }

  /** Laying the same cookie over twice is the same as once. */
  lemma OverlayIdempotent(base: Cookie, o: Cookie)
    ensures Overlay(Overlay(base, o), o) == Overlay(base, o)
    ensures Overlay(o, o) == o
  {
  }

  /** Two overlays in turn are one overlay with the two overlays combined. */
  lemma OverlayAssociative(base: Cookie, o1: Cookie, o2: Cookie)
    ensures Overlay(Overlay(base, o1), o2) == Overlay(base, Overlay(o1, o2))
  {
  }

  /** No sequence of overlays clears `Secure` or `HttpOnly`, or empties a value. */
  lemma {:induction false} SettleKeepsFlags(acc: Option<Cookie>, s: seq<Cookie>)
    requires acc.Some?
    ensures Settle(acc, s).Some?
    ensures acc.value.secure ==> Settle(acc, s).value.secure
    ensures acc.value.httpOnly ==> Settle(acc, s).value.httpOnly
    ensures acc.value.value != "" ==> Settle(acc, s).value.value != ""
    decreases |s|
  {
    if s != [] {
      SettleKeepsFlags(acc, s[..|s| - 1]);
    }
  }

  /** `Secure` and `HttpOnly` are monotone under the merge, and a value never becomes empty. */
  lemma MergeKeepsFlags(c1: seq<Cookie>, c2: seq<Cookie>, n: string)
    requires n in ToJar(c1)
    ensures n in MergeSpec(c1, c2)
    ensures ToJar(c1)[n].secure ==> MergeSpec(c1, c2)[n].secure
    ensures ToJar(c1)[n].httpOnly ==> MergeSpec(c1, c2)[n].httpOnly
    ensures ToJar(c1)[n].value != "" ==> MergeSpec(c1, c2)[n].value != ""
  {
    FoldAt(ToJar(c1), c2, n);
    SettleKeepsFlags(Get(ToJar(c1), n), WithName(c2, n));
  }

  /** An overlay list of all-default cookies whose names are all known changes nothing. */
  lemma {:induction false} FoldAllDefault(j: Jar, s: seq<Cookie>)
    requires forall k :: 0 <= k < |s| ==> IsAllDefault(s[k]) && s[k].name in j
    ensures Fold(j, s) == j
  {
    if s != [] {
      FoldAllDefault(j, s[..|s| - 1]);
    }
  }

  /** All the overlay cookies of one name combined into one, first to last. */
  function Combined(w: seq<Cookie>): Cookie
    requires w != []
  {
    Settle(None, w).value
  }

  /** Laying a non-empty list over a cookie is one overlay by the list combined. */
  lemma {:induction false} SettleIsOneOverlay(b: Cookie, w: seq<Cookie>)
    requires w != []
    ensures Settle(Some(b), w) == Some(Overlay(b, Combined(w)))
    decreases |w|
  {
    var init, last := w[..|w| - 1], w[|w| - 1];
    if init != [] {
      SettleIsOneOverlay(b, init);
      OverlayAssociative(b, Combined(init), last);
    }
  }

  /** Laying the same overlays a second time over one name's cookie changes nothing. */
  lemma SettleTwiceIsOnce(a: Option<Cookie>, w: seq<Cookie>)
    ensures Settle(Settle(a, w), w) == Settle(a, w)
  {
    if w != [] {
      var x := Settle(a, w).value;
      if a.Some? {
        SettleIsOneOverlay(a.value, w);
        OverlayIdempotent(a.value, Combined(w));
      } else {
        OverlayIdempotent(x, x);
      }
      SettleIsOneOverlay(x, w);
    }
  }

  /** Running an overlay list twice is the same as running it once. */
  lemma MergeTwiceIsOnce(j: Jar, s: seq<Cookie>)
    ensures Fold(Fold(j, s), s) == Fold(j, s)
  {
    forall n ensures Get(Fold(Fold(j, s), s), n) == Get(Fold(j, s), n) {
      FoldAt(Fold(j, s), s, n);
      FoldAt(j, s, n);
      SettleTwiceIsOnce(Get(j, n), WithName(s, n));
    }
    JarsEqual(Fold(Fold(j, s), s), Fold(j, s));
  }

  lemma AppendSnoc(a: seq<Cookie>, b: seq<Cookie>)
    requires |b| > 0
    ensures (a + b)[..|a + b| - 1] == a + b[..|b| - 1]
    ensures (a + b)[|a + b| - 1] == b[|b| - 1]
  {
  }

  /** Two passes in turn are one pass over the two lists joined. */
  lemma {:induction false} FoldAppend(j: Jar, a: seq<Cookie>, b: seq<Cookie>)
    ensures Fold(Fold(j, a), b) == Fold(j, a + b)
    decreases |b|
  {
    if b == [] {
      assert a + b == a;
    } else {
      FoldAppend(j, a, b[..|b| - 1]);
      AppendSnoc(a, b);
    }
  }
}
