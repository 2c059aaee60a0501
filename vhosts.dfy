/**
  The virtual-host registry and resolver: a `VhostsManager` maps exact hostnames and
  wildcard suffixes to sub-applications, with an optional default, and the middleware
  decides per request whether to invoke the resolved sub-application or fail with
  not-found. Sub-applications are opaque: `App` is a type parameter, and a stored
  reference may be nil, written `None`.
 */
module Vhosts {
  import opened Wrappers
  import opened Hostnames

  /** The registry's error returns (a nil error is `None`). */
  datatype VhostError = ErrInvalidHostname | ErrHostExists | ErrHostNotFound

  /** Options applied at construction. `recoverFromPanic` is never read. */
  datatype Config<App> = Config(defaultApp: Option<App>, enableLogging: bool, recoverFromPanic: bool)

  /** What the middleware does with a request: fail with fiber.ErrNotFound,
      or hand the request to a sub-application. */
  datatype DispatchOutcome<App> = NotFound | Invoke(app: App)

  class VhostsManager<App> {
    var hosts: map<string, Option<App>>
    var wildcards: map<string, Option<App>>
    var defaultApp: Option<App>
    var enableLog: bool

    /** Exact keys are never empty and never wildcard patterns: AddHostname rejects
        the empty name and files "*."-names under `wildcards`. */
    ghost predicate Valid()
      reads this
    {
      forall h :: h in hosts ==> h != "" && !IsWildcardPattern(h)
    }

    /** NewVhostsManager(config...): empty maps; the first config, if any, supplies
        the default app and the logging flag. */
    constructor (config: seq<Config<App>>)
      ensures Valid()
      ensures hosts == map[] && wildcards == map[]
      ensures |config| > 0 ==> defaultApp == config[0].defaultApp && enableLog == config[0].enableLogging
      ensures |config| == 0 ==> defaultApp == None && !enableLog
    {
      hosts := map[];
      wildcards := map[];
      if |config| > 0 {
        defaultApp := config[0].defaultApp;
        enableLog := config[0].enableLogging;
      } else {
        defaultApp := None;
        enableLog := false;
      }
    }

    method AddHostname(hostname: string, app: Option<App>) returns (err: Option<VhostError>)
      requires Valid()
      modifies this
      ensures Valid()
      ensures defaultApp == old(defaultApp) && enableLog == old(enableLog)
      ensures hostname == "" ==>
        err == Some(ErrInvalidHostname) && hosts == old(hosts) && wildcards == old(wildcards)
      ensures IsWildcardPattern(hostname) ==>
        hosts == old(hosts) &&
        var suffix := WildcardSuffix(hostname);
        if suffix in old(wildcards) then err == Some(ErrHostExists) && wildcards == old(wildcards)
        else err == None && wildcards == old(wildcards)[suffix := app]
      ensures hostname != "" && !IsWildcardPattern(hostname) ==>
        wildcards == old(wildcards) &&
        if hostname in old(hosts) then err == Some(ErrHostExists) && hosts == old(hosts)
        else err == None && hosts == old(hosts)[hostname := app]
      ensures err == None && !IsWildcardPattern(hostname) ==> GetHostname(hostname) == (app, true)
    {
      if hostname == "" {
        return Some(ErrInvalidHostname);
      }
      if IsWildcardPattern(hostname) {
        var suffix := hostname[2..];
        if suffix in wildcards {
          return Some(ErrHostExists);
        }
        wildcards := wildcards[suffix := app];
        return None;
      }
      if hostname in hosts {
        return Some(ErrHostExists);
      }
      hosts := hosts[hostname := app];
      return None;
    }

    method RemoveHostname(hostname: string) returns (err: Option<VhostError>)
      requires Valid()
      modifies this
      ensures Valid()
      ensures defaultApp == old(defaultApp) && enableLog == old(enableLog)
      ensures IsWildcardPattern(hostname) ==>
        hosts == old(hosts) &&
        var suffix := WildcardSuffix(hostname);
        if suffix in old(wildcards) then err == None && wildcards == old(wildcards) - {suffix}
        else err == Some(ErrHostNotFound) && wildcards == old(wildcards)
      ensures !IsWildcardPattern(hostname) ==>
        wildcards == old(wildcards) &&
        if hostname in old(hosts) then err == None && hosts == old(hosts) - {hostname}
        else err == Some(ErrHostNotFound) && hosts == old(hosts)
      ensures hostname == "" ==> err == Some(ErrHostNotFound)
      ensures err == None && !IsWildcardPattern(hostname) ==> GetHostname(hostname) == (None, false)
    {
      if IsWildcardPattern(hostname) {
        var suffix := hostname[2..];
        if suffix !in wildcards {
          return Some(ErrHostNotFound);
        }
        wildcards := wildcards - {suffix};
        return None;
      }
      if hostname !in hosts {
        return Some(ErrHostNotFound);
      }
      hosts := hosts - {hostname};
      return None;
    }

    /** The exact binding for `hostname` and whether there is one; wildcards and
        the default are not consulted. A miss yields Go's zero value, nil. */
    function GetHostname(hostname: string): (result: (Option<App>, bool))
      reads this
      ensures result.1 <==> hostname in hosts
      ensures result.1 ==> result.0 == hosts[hostname]
      ensures !result.1 ==> result.0 == None
      ensures Valid() && (hostname == "" || IsWildcardPattern(hostname)) ==> !result.1
    {
      if hostname in hosts then (hosts[hostname], true) else (None, false)
    }

    /** Every exact hostname, each once, in no particular order; wildcards are not listed. */
    method GetHostnames() returns (names: seq<string>)
      ensures |names| == |hosts|
      ensures forall i, j :: 0 <= i < j < |names| ==> names[i] != names[j]
      ensures forall h :: h in names <==> h in hosts
      ensures Valid() ==> forall i :: 0 <= i < |names| ==> names[i] != "" && !IsWildcardPattern(names[i])
    {
      names := [];
      var remaining := hosts.Keys;
      while remaining != {}
        invariant remaining <= hosts.Keys
        invariant forall h :: h in names <==> h in hosts && h !in remaining
        invariant forall i, j :: 0 <= i < j < |names| ==> names[i] != names[j]
        invariant |names| + |remaining| == |hosts|
        decreases |remaining|
      {
        var h :| h in remaining;
        names := names + [h];
        remaining := remaining - {h};
      }
      assert forall i :: 0 <= i < |names| ==> names[i] in hosts;
    }

    /** Replaces the default unconditionally: every hostname that has neither an exact
        nor a wildcard binding now dispatches to `app` (or to not-found when `app` is nil). */
    method SetDefaultApp(app: Option<App>)
      requires Valid()
      modifies this`defaultApp
      ensures Valid()
      ensures defaultApp == app
      ensures forall h :: Unbound(h) ==> VhostMiddleware(this, h) == if app.Some? then Invoke(app.value) else NotFound
    {
      defaultApp := app;
    }

    /** Neither an exact entry nor the wildcard for the hostname's parent domain is registered. */
    ghost predicate Unbound(hostname: string)
      reads this
    {
      hostname !in hosts &&
      match WildcardDomain(hostname)
      case None => true
      case Some(domain) => domain !in wildcards
    }

    /** findMatchingApp: the exact binding, else the wildcard bound to the hostname with
        its first label stripped, else the default. */
    function FindMatchingApp(hostname: string): (app: Option<App>)
      reads this
      ensures hostname in hosts ==> app == hosts[hostname]
      ensures Dot !in hostname && hostname !in hosts ==> app == defaultApp
      ensures Unbound(hostname) ==> app == defaultApp
    {
      if hostname in hosts then hosts[hostname]
      else
        var domain := WildcardDomain(hostname);
        if domain.Some? && domain.value in wildcards then wildcards[domain.value]
        else defaultApp
    }
  }

  /** The decision VhostMiddleware makes for a request whose Host is `hostname`. */
  function VhostMiddleware<App>(manager: VhostsManager<App>, hostname: string): (outcome: DispatchOutcome<App>)
    reads manager
    ensures outcome == NotFound <==> manager.FindMatchingApp(hostname) == None
    ensures outcome.Invoke? ==> manager.FindMatchingApp(hostname) == Some(outcome.app)
  {
    match manager.FindMatchingApp(hostname)
    case None => NotFound
    case Some(app) => Invoke(app)
  }

  /** An exact entry wins over a wildcard that would also match (a corollary of
      FindMatchingApp's first postcondition, stated for the precedence case). */
  lemma ExactBeatsWildcard<App>(manager: VhostsManager<App>, subdomain: string, domain: string)
    requires Dot !in subdomain
    requires subdomain + [Dot] + domain in manager.hosts
    requires domain in manager.wildcards
    ensures manager.FindMatchingApp(subdomain + [Dot] + domain) == manager.hosts[subdomain + [Dot] + domain]
  {
  }

  /** "label.domain" with no exact entry resolves to the wildcard registered
      as "*.domain", whatever dots `domain` itself holds. */
  lemma WildcardMatchesOneLabel<App>(manager: VhostsManager<App>, subdomain: string, domain: string)
    requires Dot !in subdomain
    requires subdomain + [Dot] + domain !in manager.hosts
    requires domain in manager.wildcards
    ensures manager.FindMatchingApp(subdomain + [Dot] + domain) == manager.wildcards[domain]
  {
    WildcardDomainOf(subdomain, domain);
  }

  /** "label.domain" with no exact entry and no "*.domain" wildcard falls to the default;
      in particular a wildcard for a shorter suffix of `domain` is not consulted. */
  lemma MissFallsToDefault<App>(manager: VhostsManager<App>, subdomain: string, domain: string)
    requires Dot !in subdomain
    requires subdomain + [Dot] + domain !in manager.hosts
    requires domain !in manager.wildcards
    ensures manager.FindMatchingApp(subdomain + [Dot] + domain) == manager.defaultApp
  {
    WildcardDomainOf(subdomain, domain);
  }

  /** A bound but nil exact entry is returned as is: the request is not found even
      when a wildcard or a default would match (a corollary of the contracts of
      FindMatchingApp and VhostMiddleware). */
  lemma NilBindingShadowsDefault<App>(manager: VhostsManager<App>, hostname: string)
    requires hostname in manager.hosts && manager.hosts[hostname] == None
    ensures VhostMiddleware(manager, hostname) == NotFound
  {
  }
}
