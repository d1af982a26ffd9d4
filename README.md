# cookiesmanager — a Dafny model of the cookie overlay

The plugin is a Traefik middleware that rewrites the cookies of every request
it sees. Its configuration holds two lists of cookie entries, `adder` and
`remover`. Each entry has a required name and eight optional fields (value,
path, domain, expires, maxAge, secure, httpOnly, sameSite). For each request
the middleware converts the entries to `http.Cookie` values, lays the adders
over the request's cookies, lays the removers over the result, and puts the
resulting cookies back on the request.

Both passes use the same merge (`MergeCookies`). A cookie whose name is not
yet in the jar is inserted as it is. A cookie whose name is already there
overrides only the fields that are not at Go's zero value: a non-empty text,
a non-zero time or integer, `true`, a SameSite other than 0. So a remover
never deletes a cookie, and `false`, `""` and `0` can never override
anything.

Files:

- `wrappers.dfy` — `Option`, for the configuration's nil-able pointer fields.
- `cookies.dfy` — module `Cookies`: the cookie and configuration records,
  `SamesiteFromString` and `ToHttpCookie`.
- `config_text.dfy` — module `ConfigText`: the debug text `CookieConfig.String`.
- `merge.dfy` — module `Merge`: the field-wise overlay, the jar built from a
  list, a pure fold that specifies the merge, the imperative `MergeCookies`,
  and what the merge does to each name.
- `manager.dfy` — module `Manager`: the adder-then-remover chain of
  `ServeHTTP`, and the three request scenarios of the repository's tests.

Modelling choices:

- `expires` is an abstract `Instant` (an `int`); 0 stands for Go's zero
  `time.Time`, so `IsZero` becomes `IsZeroTime`.
- `http.SameSite` is a datatype with five constructors. `Unset` is Go's zero
  value 0, and `DefaultMode` is Go's `SameSiteDefaultMode`, which is 1. So an
  unknown SameSite text still gives a non-zero mode, and that mode overrides
  in the merge.
- The merge's result is specified as a jar: a map from name to cookie. The
  list `MergeCookies` returns is read through `ToJar`, and its order is left
  open. `JarCookies` picks the remaining names in any order, as Go's map
  iteration does.
- Cookies are values. The Go code updates `*http.Cookie` objects in place
  through the map. The model builds the updated cookie and stores it under
  its name.

Facts about the code that shape the model:

- `MergeCookies` first collapses `c1` by name, and the last cookie of each
  name wins (main.go:167-169). So the merged list can be shorter than `c1`.
  The bound `Merge.MergeCookies` proves is the number of distinct names in
  `c1`.
- The output order is the map's iteration order (main.go:215-217), which is
  unspecified.
- The code changes the cookies it is given (main.go:179, 185-210). The model
  has value semantics, so this in-place change is not captured.
- The request's cookies come from the `Cookie` header, which carries only
  `name=value`. So in the scenario lemmas every other field of a request
  cookie is at its zero value.

## Model

| member | source | states |
|---|---|---|
| `Cookies.ZeroCookie` | main.go:92-94 | The cookie built from a name alone has every other field at Go's zero value, with SameSite 0. |
| `Cookies.SamesiteFromString` | main.go:76-87 | "lax", "strict" and "none" map to their modes, and every other text maps to the default mode. The result is never the zero value. Each direction of each case is stated as an iff. |
| `Cookies.SameSiteText` | main.go:76-87 | Every non-zero mode has a text that `SamesiteFromString` maps back to it. |
| `Cookies.ToHttpCookie` | main.go:88-129 | The name is always copied. Each optional field is copied when it is set and is left at its zero value when it is not. A set SameSite text goes through `SamesiteFromString`. |
| `Cookies.NameOnlyIsZeroCookie` | main.go:88-129 | An entry that gives only a name converts to the all-zero cookie of that name. |
| `Cookies.FullConfigRoundTrip` | main.go:88-129 | Every cookie whose SameSite is not 0 is what the fully set entry for it converts to, so the conversion loses nothing when every field is set. |
| `Cookies.SetSameSiteNeverZero` | main.go:124-126 | An entry that sets SameSite never yields the zero mode, whatever the text. |
| `ConfigText.ConfigString` | main.go:25-74 | The debug text is `CookieConfig{name=N, ` followed by the eight slots joined by `, ` and then `}`. |
| `ConfigText.Slots` | main.go:26-72 | There are eight slots in the fixed order value, path, domain, expires, maxAge, secure, httpOnly, sameSite. A slot is empty exactly when its field is unset, and otherwise starts with `label=`. |
| `ConfigText.Slot` | main.go:26-30 | A slot is empty exactly when the field is unset. Otherwise it is the label, `=` and the field's text. |
| `ConfigText.NameOnlyString` | main.go:74 | A name-only entry prints `CookieConfig{name=N, , , , , , , , }`. |
| `ConfigText.NatToString` | main.go:53 | The `%d` digits of a natural number are a non-empty string of decimal digits with no leading zero. |
| `ConfigText.IntToString` | main.go:53 | `%d` prints a leading minus sign exactly for negative numbers. |
| `ConfigText.IntToStringRoundTrip` | main.go:53 | The printed maxAge reads back as the same integer. |
| `ConfigText.BoolToString` | main.go:59 | `%t` prints "true" exactly for `true` and "false" exactly for `false`. |
| `Merge.OverlayText` | main.go:184-192 | A text field of the overlay wins exactly when it is non-empty. |
| `Merge.OverlayInt` | main.go:193-198 | An expiry or maxAge of the overlay wins exactly when it is non-zero. |
| `Merge.OverlayFlag` | main.go:199-204 | A merged flag is the base flag or the overlay flag, so the overlay can set Secure or HttpOnly but never clear it. |
| `Merge.OverlaySameSite` | main.go:205-207 | The overlay's SameSite wins exactly when it is not 0. |
| `Merge.Overlay` | main.go:183-207 | For a name in both lists, each field is the overlay's field if that is non-default, else the base's. The name is the base's. Secure and HttpOnly are the disjunction of the two cookies' flags. |
| `Merge.OverrideFields` | main.go:183-207 | The field-by-field update of an existing cookie gives exactly `Overlay(existing, cookie)`. |
| `Merge.ToJar` | main.go:165-169 | The map built from a list has exactly the list's names as keys, and each entry is filed under its own name. |
| `Merge.ToJarLastWins` | main.go:167-169 | When a list repeats a name, the map holds the last cookie of that name. |
| `Merge.Apply` | main.go:173-211 | One overlay step adds the overlay's name to the keys and leaves every other name's cookie unchanged. |
| `Merge.Fold` | main.go:171-211 | Laying a list over a jar gives keys that are the jar's keys together with the list's names, and entries stay filed under their own names. |
| `Merge.JarCookies` | main.go:213-217 | Turning the map into a list gives one cookie per name, in any order, and the list read back as a map is the map. |
| `Merge.MergeCookies` | main.go:159-221 | The returned list, read as a map, is the fold of the overlay list over the map of `c1`. It has exactly one cookie per name in the union of the two lists' names. Its length is the number of those names, which is at least the number of distinct names in `c1`. |
| `Merge.FoldAt` | main.go:173-211 | The merge works name by name. A name's final cookie depends only on its cookie before the merge and on the overlay cookies of that name, applied in order. |
| `Merge.WithNameEmpty` | main.go:173-181 | A name has no overlay cookies exactly when it is not among the overlay list's names. |
| `Merge.WithNameDistinct` | main.go:173-181 | In a list without repeated names, each name has at most one cookie. |
| `Merge.MergeKeepsUnmentioned` | main.go:173-181 | A name the overlay list does not mention keeps its cookie from `c1`, the last of that name. |
| `Merge.MergeInsertsNew` | main.go:177-181 | A name only the overlay list has, and only once, comes out exactly as given. |
| `Merge.MergeOverlaysExisting` | main.go:183-210 | A name both lists have, the overlay once, comes out as the field-wise overlay of the `c1` cookie. |
| `Merge.OverlayAllDefault` | main.go:183-207 | An all-default overlay cookie leaves an existing cookie unchanged. |
| `Merge.OverlayIdempotent` | main.go:183-207 | Laying the same cookie over twice gives the same as once, and a cookie laid over itself is unchanged. |
| `Merge.OverlayAssociative` | main.go:183-207 | Two overlays in turn equal one overlay with the two overlay cookies combined first. |
| `Merge.SettleKeepsFlags` | main.go:184-204 | No sequence of overlays clears Secure or HttpOnly, or empties a non-empty value. |
| `Merge.MergeKeepsFlags` | main.go:184-204 | After a merge, a cookie of `c1` that had Secure, HttpOnly or a non-empty value still has it. |
| `Merge.FoldAllDefault` | main.go:183-211 | A list of all-default overlay cookies whose names are all in the jar changes nothing. |
| `Merge.SettleIsOneOverlay` | main.go:173-211 | Laying a non-empty list of same-name cookies over a cookie equals one overlay by those cookies combined first to last. |
| `Merge.SettleTwiceIsOnce` | main.go:173-211 | Laying the same same-name overlay cookies over a name's cookie a second time changes nothing. |
| `Merge.MergeTwiceIsOnce` | main.go:171-211 | Laying any overlay list over a jar twice gives the same jar as laying it once. |
| `Merge.FoldAppend` | main.go:256-262 | Two merge passes in turn equal one pass over the two overlay lists joined. |
| `Manager.Converted` | main.go:236-246 | The converted list has one cookie per entry, in order, each being `ToHttpCookie` of its entry. |
| `Manager.ConvertedNames` | main.go:236-246 | The converted adders or removers carry exactly the configured names. |
| `Manager.RewriteCookies` | main.go:231-262 | The request's final list, read as a map, is the adders laid over the request's cookies and then the removers laid over that. There is one cookie per name in the union of the request's, the adders' and the removers' names. The removers never lower the count below what the adders left. |
| `Manager.RewriteIsOnePass` | main.go:256-262 | The adder pass followed by the remover pass equals one pass over adders then removers. |
| `Manager.UnsetFieldsKeep` | main.go:183-207 | A field that a configuration entry leaves unset never changes the cookie the entry is laid over. Neither does an explicit `""`, `0` or `false`. |
| `Manager.SetSameSiteOverrides` | main.go:205-207 | A set SameSite text always overrides, even one `SamesiteFromString` does not know. |
| `Manager.NameOnlyRemoversAreNoOps` | main.go:242-262 | Removers that give only a name, for names already present, leave the jar unchanged. |
| `Manager.RemoverOverwritesMatchingCookie` | main_test.go:38-79 | A matching remover with every field set leaves two cookies. `test1` becomes the remover's cookie, so its value becomes "foo", and `test2` is unchanged. |
| `Manager.AdderInsertsNewCookie` | main_test.go:81-125 | An adder with a new name adds a third cookie, and the request's two cookies are unchanged. |
| `Manager.AdderUpdatesExistingCookie` | main_test.go:127-167 | An adder with a known name sets that cookie's value to "foo" and leaves two cookies. |

## Left out

- Parsing the `Cookie` header and putting cookies back on the request. This is `req.Cookies()`, `req.AddCookie` and the header deletes, done by Go's `net/http` (main.go:231, 265-271). The model takes the parsed cookies as its input list and returns the list that is put back.
- The `Set-Cookie` header path (main.go:232-233, 248-254, 259, 263, 274). It picks element `[0]` of a merge result whose order is Go's random map order, so which cookie it keeps is not determined. main.go:252 can also index an empty list. It also relies on `http.ReadRequest` and `cookie.String()`.
- `New`, `CreateConfig`, the `CookieManager` struct and the call to the next handler (main.go:131-157, 277). They are plumbing and have no logic to verify.
- JSON decoding of the configuration into `CookieConfig`. The model starts from the decoded entries.
- Aliasing. `MergeCookies` changes the cookies of `c1` in place and stores pointers from `c2` that a later pass changes (main.go:179, 185-210). The model has value semantics, so effects on the caller's objects are not captured.
- `time.Time`. Expiry is an abstract integer with a zero test. `Expires.String()` (main.go:47) is the parameter `timeText` of `ConfigText.ConfigString`.
- Result order. The order of `MergeCookies`' list (main.go:215-217) is unspecified, and no contract states it. The repository's tests that check positions (main_test.go:72-78, 114-124, 160-166) depend on it. The scenario lemmas check names and values only.
- The value-substring editing variant of the plugin (append a token, delete every occurrence of a token) is not in main.go and is not part of this model.
