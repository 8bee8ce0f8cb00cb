/** Which requests the boundary guards: the route table written out, and what each subject is read from. */
module WebAuthnRoutes {
  import opened Prelude
  import opened WebAuthn

  const ADMIN_COMPLETE := "admin:admin_mfa_webauthn_complete"
  const ADMIN_OPTIONS := "admin:admin_mfa_webauthn_options"

  function Route(client: string, name: string): string {
    "headless:" + client + ":mfa:" + name
  }

  /** The five account ceremonies: endpoint, verb of completion, type, purpose. */
  predicate Ceremony(name: string, verb: string, expectedType: string, purpose: string) {
    || (name == "login_webauthn" && verb == "POST" && expectedType == "webauthn.get" && purpose == "account.login")
    || (name == "authenticate_webauthn" && verb == "POST" && expectedType == "webauthn.get"
        && purpose == "account.authenticate")
    || (name == "reauthenticate_webauthn" && verb == "POST" && expectedType == "webauthn.get"
        && purpose == "account.reauthenticate")
    || (name == "manage_webauthn" && verb == "POST" && expectedType == "webauthn.create" && purpose == "account.register")
    || (name == "signup_webauthn" && verb == "PUT" && expectedType == "webauthn.create" && purpose == "account.signup")
  }

  /** The route of that endpoint, for one of the two clients. */
  predicate OnRoute(route: string, name: string) {
    route == Route("app", name) || route == Route("browser", name)
  }

  ghost predicate AccountRoute(route: string, p: Policy) {
    && (exists name :: OnRoute(route, name) && Ceremony(name, p.verb, p.expectedType, p.purpose))
    && p.surface == Account && p.nested
  }

  const ADMIN_POLICY := Policy("POST", "webauthn.get", Admin, false, "admin.authenticate")

  lemma AccountNames(name: string, p: Policy)
    ensures AccountPolicy(name) == Some(p) <==>
              Ceremony(name, p.verb, p.expectedType, p.purpose) && p.surface == Account && p.nested
  {
  }

  lemma HeadlessExactly(route: string, name: string)
    ensures HeadlessName(route) == Some(name) <==> OnRoute(route, name)
  {
    var app, browser := "headless:app:mfa:", "headless:browser:mfa:";
    assert Route("app", name) == app + name && Route("browser", name) == browser + name;
    assert app[9] == 'a' && browser[9] == 'b';
    if app <= route { assert route == app + route[|app|..]; }
    if browser <= route { assert route == browser + route[|browser|..]; }
  }

  lemma AdminIsNotHeadless(name: string)
    ensures !OnRoute(ADMIN_COMPLETE, name) && !OnRoute(ADMIN_OPTIONS, name)
  {
    assert Route("app", name)[0] == 'h' && Route("browser", name)[0] == 'h';
  }

  /** A completion request is guarded exactly on the admin route and the five account routes of either
      client, each under its own policy. */
  lemma CompletionRoutesExactly(route: string, p: Policy)
    ensures CompletionPolicy(route) == Some(p) <==>
              (route == ADMIN_COMPLETE && p == ADMIN_POLICY) || AccountRoute(route, p)
  {
    hide AccountPolicy, HeadlessName, OnRoute, Ceremony;
    forall name
      ensures HeadlessName(route) == Some(name) <==> OnRoute(route, name)
      ensures AccountPolicy(name) == Some(p) <==> Ceremony(name, p.verb, p.expectedType, p.purpose) && p.surface == Account && p.nested
      ensures !OnRoute(ADMIN_COMPLETE, name)
    {
      HeadlessExactly(route, name);
      AccountNames(name, p);
      AdminIsNotHeadless(name);
    }
  }

  /** An options request is guarded exactly on the admin's options route and, by GET, on those same
      account routes. */
  lemma OptionsRoutesExactly(route: string, p: Policy)
    ensures OptionsPolicy(route) == Some(p) <==>
              || (route == ADMIN_OPTIONS && p == ADMIN_POLICY.(verb := "GET"))
              || (p.verb == "GET" && exists verb | verb in {"POST", "PUT"} :: AccountRoute(route, p.(verb := verb)))
  {
    hide CompletionPolicy, AccountRoute;
    forall q ensures CompletionPolicy(route) == Some(q) <==> (route == ADMIN_COMPLETE && q == ADMIN_POLICY) || AccountRoute(route, q) {
      CompletionRoutesExactly(route, q);
    }
    AccountVerbs(route);
    var completion := CompletionPolicy(route);
    if completion.Some? && AccountRoute(route, completion.value) {
      assert completion.value.(verb := "GET").(verb := completion.value.verb) == completion.value;
    }
    forall verb | AccountRoute(route, p.(verb := verb)) ensures CompletionPolicy(route) == Some(p.(verb := verb)) {
      assert CompletionPolicy(route) == Some(p.(verb := verb));
    }
  }

  lemma AccountVerbs(route: string)
    ensures forall q | AccountRoute(route, q) :: q.verb in {"POST", "PUT"} && q.surface == Account
    ensures forall q | AccountRoute(route, q) :: route != ADMIN_OPTIONS && route != ADMIN_COMPLETE
  {
    hide OnRoute;
    forall name ensures !OnRoute(ADMIN_COMPLETE, name) && !OnRoute(ADMIN_OPTIONS, name) { AdminIsNotHeadless(name); }
  }
}
