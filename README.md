# fiber-vhosts: hostname registry and resolver

This project models the virtual-hosting core of `fibervhosts`, a Go package.
A `VhostsManager` binds hostnames to Fiber sub-applications. It holds three pieces of state:

- `hosts`: exact hostname → app.
- `wildcards`: domain suffix → app. A registration `"*.example.com"` is filed under `"example.com"`.
- `defaultApp`: an optional fallback.

The middleware resolves each request's hostname in three tiers:

1. the exact entry;
2. otherwise, the wildcard bound to the hostname with its first label stripped;
3. otherwise, the default.

When nothing resolves, the request fails with not-found. Otherwise the resolved sub-application handles it.

Layout:

- `wrappers.dfy` — `Option`. `None` plays the role of Go's nil `*fiber.App`. Go lets nil be stored as a binding or as the default, so every stored app is an `Option<App>`.
- `hostnames.dfy` — module `Hostnames`: the `"*."` prefix test and suffix, and Go's `strings.Split`/`strings.Join` on `"."`. The resolver uses these, exactly as the source does, to strip one label. Lemmas prove that this strip gives the text after the first dot. They also prove that a hostname without a dot has no wildcard domain.
- `vhosts.dfy` — module `Vhosts`: the class `VhostsManager<App>` has the source's fields and methods. `AddHostname`, `RemoveHostname` and `SetDefaultApp` change the fields in place. `GetHostnames` builds its list in a loop. `GetHostname` and `FindMatchingApp` are functions over the current state. `VhostMiddleware` is the not-found/invoke decision, as a `DispatchOutcome` value. The object invariant `Valid()` says that exact keys are never empty and never start with `"*."`. Every mutator preserves it.
- `scenarios.dfy` — module `VhostsScenarios`: client methods that reproduce the repository's tests (`vhosts_test.go`) and the wildcard and precedence cases. They use only the contracts above.

Quirks kept from the code:

- `"*."` alone registers a wildcard under the empty suffix.
- Only one label is stripped. `"*.a.b"` serves `"x.a.b"`, but not `"y.x.a.b"` or `"a.b"`.
- `RemoveHostname` has no empty-name check. `""` still gets `ErrHostNotFound`, because `Valid()` keeps `""` out of `hosts`.
- An exact or wildcard entry bound to nil is returned as is. The lookup does not fall through to the default, so the request is not found.

Where the design description and the code differ, the model follows the code:

- `AddHostname` reports `ErrHostExists` only when the key already exists in the map the input goes to. It does not check across both maps.
- `Config.RecoverFromPanic` is never read. The code installs the recover middleware when logging is enabled.
- `findMatchingApp` takes no lock.

## Model

| member | source | states |
|---|---|---|
| `Hostnames.IsWildcardPattern` | vhosts.go:61 | the wildcard test holds exactly when the input starts with `"*."` (`strings.HasPrefix`, also at vhosts.go:83) |
| `Hostnames.WildcardSuffix` | vhosts.go:61-62 | the key of a `"*."` registration is the rest of the input: prefixing `"*."` to it gives back the input |
| `Hostnames.Split` | vhosts.go:134 | `strings.Split` on one separator returns at least one part, and no part contains the separator |
| `Hostnames.Join` | vhosts.go:136 | `strings.Join` of no parts is `""`, and the first part is a prefix of the result; its round trip with `Split` is `JoinSplit` |
| `Hostnames.SplitWithoutSeparator` | vhosts.go:134-135 | a string without the separator splits into itself alone (so `len(parts) > 1` fails) |
| `Hostnames.SplitAfterLabel` | vhosts.go:134 | splitting `label + sep + rest` (with `label` free of the separator) gives `label` followed by the parts of `rest` |
| `Hostnames.JoinSplit` | vhosts.go:134-136 | `strings.Join(strings.Split(s, sep), sep) == s` for every string |
| `Hostnames.SplitStrip` | vhosts.go:134-136 | splitting on `"."` gives more than one part exactly when there is a dot, and joining the parts after the first gives the text after the first dot |
| `Hostnames.WildcardDomain` | vhosts.go:134-136 | the one-label strip as the source computes it: there is a wildcard domain exactly when the hostname contains a dot; the domain is what follows the first dot, and the label dropped before it has no dot |
| `Hostnames.WildcardDomainOf` | vhosts.go:134-137 | for a dot-free label, the wildcard domain of `label.domain` is `domain`, whatever dots `domain` holds |
| `Vhosts.VhostsManager.constructor` | vhosts.go:37-49 | both maps start empty; the first config (if any) gives the default app and the logging flag, otherwise there is no default and logging is off; the invariant holds |
| `Vhosts.VhostsManager.AddHostname` | vhosts.go:52-76 | `""` → `ErrInvalidHostname`, nothing changes; `"*."`-input → only `wildcards` may change, keyed by the suffix, `ErrHostExists` (and no overwrite) when the suffix is already bound; other input → only `hosts` may change, with the same rule; the default never changes; after a successful exact add, `GetHostname` returns `(app, true)` |
| `Vhosts.VhostsManager.RemoveHostname` | vhosts.go:79-98 | an absent key in its map → `ErrHostNotFound` and nothing changes; otherwise exactly that key is deleted from that map and the other map and the default are untouched; `""` always gets `ErrHostNotFound`; after a successful exact removal, `GetHostname` reports not found |
| `Vhosts.VhostsManager.GetHostname` | vhosts.go:101-106 | found exactly when the name is an exact key, with its binding; a miss yields nil; the empty name and `"*."`-names are never found |
| `Vhosts.VhostsManager.GetHostnames` | vhosts.go:109-117 | returns every exact key, each once, length equal to the map's size, nothing else; no listed name is empty or a wildcard pattern |
| `Vhosts.VhostsManager.SetDefaultApp` | vhosts.go:120-124 | only `defaultApp` changes; every hostname without an exact or wildcard binding now dispatches to the new default (or is not found when it is nil) |
| `Vhosts.VhostsManager.FindMatchingApp` | vhosts.go:127-143 | an exact key yields its binding even when a wildcard also matches; a dot-free hostname without an exact key yields the default; a hostname with neither an exact nor a parent-domain wildcard binding yields the default |
| `Vhosts.VhostMiddleware` | vhosts.go:157-171 | not-found exactly when resolution yields nil; otherwise the resolved app is invoked |
| `Vhosts.ExactBeatsWildcard` | vhosts.go:128-131 | corollary of `FindMatchingApp`'s first postcondition: when both `label.domain` and `*.domain` are registered, `label.domain` resolves to its exact binding |
| `Vhosts.WildcardMatchesOneLabel` | vhosts.go:133-139 | `label.domain` with no exact entry resolves to the app bound to `*.domain` |
| `Vhosts.MissFallsToDefault` | vhosts.go:133-142 | `label.domain` with no exact entry and no `*.domain` resolves to the default; wildcards for shorter suffixes of `domain` are not consulted |
| `Vhosts.NilBindingShadowsDefault` | vhosts.go:129-131 | corollary of the `FindMatchingApp` and `VhostMiddleware` contracts: an exact key bound to nil makes the request not found, even when a wildcard or default exists |

## Left out

- Locking (`sync.RWMutex`): the model is sequential. The unlocked reads in `findMatchingApp` are a concurrency concern outside it.
- Logging (`log.Infof`, `log.Warnf`): observability only, with no effect on control flow.
- Panic recovery (`recover.New()`, `app.Use(recoverHandler)`): this is middleware from the Fiber framework that mutates the sub-application. The `enableLog` flag is stored, but nothing in the model reads it.
- The Fiber request context: `c.Hostname()` is an input string in the model, and `app.Handler()(c.Context())` is the opaque `Invoke` outcome.
- `example/example.go`: server setup and listening, which is process start-up and network I/O.
- Byte strings: Go strings are byte sequences, and a hostname is a Dafny `string`, a sequence of characters, so hostnames that are not valid UTF-8 are not represented. For valid UTF-8 the `"*."` test, `hostname[2:]` and the split on `"."` agree with Go, because those ASCII bytes never occur inside a multi-byte character.
- Go map iteration order (in `GetHostnames`) is modelled as an arbitrary choice of the next key. The contract does not fix an order, as the source does not.
