/**
  Clients of the registry that rely on its contracts alone: the situations the
  repository's tests exercise, and the wildcard and precedence cases the design states.
 */
module VhostsScenarios {
  import opened Wrappers
  import opened Hostnames
  import opened Vhosts

  /** An added exact hostname is found again by GetHostname (vhosts_test.go:13-22);
      adding it a second time is refused and keeps the first binding. */
  method AddThenGet<App>(first: App, second: App)
  {
    var manager := new VhostsManager<App>([]);
    var err := manager.AddHostname("example.com", Some(first));
    assert err == None;
    assert manager.GetHostname("example.com") == (Some(first), true);
    err := manager.AddHostname("example.com", Some(second));
    assert err == Some(ErrHostExists);
    assert manager.GetHostname("example.com") == (Some(first), true);
    err := manager.AddHostname("", Some(second));
    assert err == Some(ErrInvalidHostname);
  }

  /** A request for a registered host is handed to its sub-application
      (vhosts_test.go:25-52). */
  method ExistingHostDispatches<App>(subApp: App)
  {
    var manager := new VhostsManager<App>([]);
    var err := manager.AddHostname("example.com", Some(subApp));
    assert VhostMiddleware(manager, "example.com") == Invoke(subApp);
  }

  /** An unknown host with no default is not found (vhosts_test.go:55-67). */
  method UnknownHostNotFound<App>()
  {
    var manager := new VhostsManager<App>([]);
    assert "nonexistent.com" == "nonexistent" + [Dot] + "com";
    MissFallsToDefault(manager, "nonexistent", "com");
    assert VhostMiddleware(manager, "nonexistent.com") == NotFound;
  }

  /** Configuring a default turns that miss into a dispatch to the default. */
  method DefaultCatchesUnknownHost<App>(fallback: App)
  {
    var manager := new VhostsManager<App>([]);
    manager.SetDefaultApp(Some(fallback));
    assert "nonexistent.com" == "nonexistent" + [Dot] + "com";
    MissFallsToDefault(manager, "nonexistent", "com");
    assert VhostMiddleware(manager, "nonexistent.com") == Invoke(fallback);
  }

  /** GetHostnames lists exactly the exact hostnames, whatever their order
      (vhosts_test.go:70-81). */
  method ListHostnames<App>(app1: App, app2: App, app3: App)
  {
    var manager := new VhostsManager<App>([]);
    var err := manager.AddHostname("example1.com", Some(app1));
    err := manager.AddHostname("example2.com", Some(app2));
    err := manager.AddHostname("example3.com", Some(app3));
    var names := manager.GetHostnames();
    assert |names| == 3;
    assert forall h :: h in names <==> h in {"example1.com", "example2.com", "example3.com"};
  }

  /** A wildcard registration is not listed by GetHostnames. */
  method ListOmitsWildcards<App>(app: App, other: App)
  {
    var manager := new VhostsManager<App>([]);
    var err := manager.AddHostname("example1.com", Some(app));
    err := manager.AddHostname("*.example.org", Some(other));
    var names := manager.GetHostnames();
    assert names == ["example1.com"];
  }

  /** "*.example.com" serves "sub.example.com" (one label stripped). */
  method WildcardServesSubdomain<App>(wild: App, fallback: App)
  {
    var manager := new VhostsManager<App>([Config(Some(fallback), false, false)]);
    var err := manager.AddHostname("*.example.com", Some(wild));
    assert "sub.example.com" == "sub" + [Dot] + "example.com";
    WildcardMatchesOneLabel(manager, "sub", "example.com");
    assert VhostMiddleware(manager, "sub.example.com") == Invoke(wild);
  }

  /** "*.example.com" does not serve "example.com" itself: that request goes to the default. */
  method WildcardSkipsApex<App>(wild: App, fallback: App)
  {
    var manager := new VhostsManager<App>([Config(Some(fallback), false, false)]);
    var err := manager.AddHostname("*.example.com", Some(wild));
    assert "example.com" == "example" + [Dot] + "com";
    MissFallsToDefault(manager, "example", "com");
    assert VhostMiddleware(manager, "example.com") == Invoke(fallback);
  }

  /** An exact entry for a name takes precedence over a matching wildcard. */
  method ExactBeforeWildcard<App>(wild: App, exact: App)
  {
    var manager := new VhostsManager<App>([]);
    var err := manager.AddHostname("*.example.com", Some(wild));
    err := manager.AddHostname("sub.example.com", Some(exact));
    assert VhostMiddleware(manager, "sub.example.com") == Invoke(exact);
  }

  /** Removing the exact entry lets the wildcard serve the name again. */
  method RemoveExposesWildcard<App>(wild: App, exact: App)
  {
    var manager := new VhostsManager<App>([]);
    var err := manager.AddHostname("*.example.com", Some(wild));
    err := manager.AddHostname("sub.example.com", Some(exact));
    err := manager.RemoveHostname("sub.example.com");
    assert err == None && manager.hosts == map[];
    assert "sub.example.com" == "sub" + [Dot] + "example.com";
    WildcardMatchesOneLabel(manager, "sub", "example.com");
    assert VhostMiddleware(manager, "sub.example.com") == Invoke(wild);
  }
}
