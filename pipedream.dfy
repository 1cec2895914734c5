/** The Pipedream integrations: the supported list, the `connected` flag read
    from the keychain, the OAuth authorization window as an event-driven
    state machine, and the connection test. The window, the token endpoint,
    the external browser and the random nonce are outside the model: their
    answers come in as events and parameters. */
module Pipedream {
  import opened Wrappers
  import opened Json
  import opened Text
  import opened Keychain

  /** One entry of `SUPPORTED_INTEGRATIONS`. */
  datatype Integration = Integration(id: string, name: string, description: string)

  const SUPPORTED_INTEGRATIONS: seq<Integration> := [
    Integration("discord", "Discord", "Send messages to channels and manage bots."),
    Integration("slack", "Slack", "Post updates to Slack workspaces."),
    Integration("notion", "Notion", "Update databases, pages, and notes."),
    Integration("gmail", "Gmail", "Send automated emails via Gmail."),
    Integration("google-drive", "Google Drive", "Manage files in Google Drive folders."),
    Integration("github", "GitHub", "Create issues, PRs, and manage repositories.")
  ]

  const KEY_PREFIX: string := "integration-"

  /** `getCredentialKey(id)`: the keychain account of an integration. The
      id can be read back from the key, so no two integrations share one. */
  function CredentialKey(id: string): (k: string)
    ensures StartsWith(k, KEY_PREFIX)
    ensures |k| == |KEY_PREFIX| + |id| && k[|KEY_PREFIX|..] == id
  {
    KEY_PREFIX + id
  }

  /** Different integrations never share a keychain entry. */
  lemma CredentialKeyInjective(a: string, b: string)
    requires CredentialKey(a) == CredentialKey(b)
    ensures a == b
  {
    assert a == CredentialKey(a)[|KEY_PREFIX|..];
  }

  /** `Boolean(token)` for what `getCredential` gives. */
  predicate HasToken(store: Store, id: string) {
    var t := Lookup(store, CredentialKey(id));
    t.Some? && t.value != ""
  }

  // ---- listIntegrations ---------------------------------------------------

  /** `{ ...integration, connected }`. */
  datatype Listed = Listed(integration: Integration, connected: bool)

  /** `listIntegrations`: every supported integration in its declared order,
      connected exactly when the keychain holds a token for it. */
  method ListIntegrations(vault: Vault) returns (integrations: seq<Listed>)
    ensures |integrations| == |SUPPORTED_INTEGRATIONS|
    ensures forall i :: 0 <= i < |integrations| ==>
              integrations[i].integration == SUPPORTED_INTEGRATIONS[i] &&
              (integrations[i].connected <==> HasToken(vault.store, SUPPORTED_INTEGRATIONS[i].id))
  {
    integrations := [];
    var i := 0;
    while i < |SUPPORTED_INTEGRATIONS|
      invariant 0 <= i <= |SUPPORTED_INTEGRATIONS|
      invariant |integrations| == i
      invariant forall j :: 0 <= j < i ==>
                  integrations[j].integration == SUPPORTED_INTEGRATIONS[j] &&
                  (integrations[j].connected <==> HasToken(vault.store, SUPPORTED_INTEGRATIONS[j].id))
    {
      var integration := SUPPORTED_INTEGRATIONS[i];
      var token := vault.GetCredential(CredentialKey(integration.id));
      integrations := integrations + [Listed(integration, token.Some? && token.value != "")];
      i := i + 1;
    }
  }

  // ---- testIntegration ----------------------------------------------------

  /** What the flows resolve with: `{ success, message }`. */
  datatype Verdict = Verdict(success: bool, message: string)

  const NOT_CONNECTED: string := "Integration is not connected."
  const VERIFIED: string := "Connection verified via Pipedream API."
  const UNEXPECTED_REPLY: string := "Unexpected API response from Pipedream."
  const VERIFY_FAILED_PREFIX: string := "Failed to verify integration: "

  /** How the GET of the sources endpoint ended. */
  datatype Reply = Answered(data: Json) | RequestThrew(message: string)

  /** `Array.isArray(response.data?.data)`. */
  predicate ListsSources(data: Json) {
    var d := Get(Some(data), "data");
    d.Some? && d.value.JArr?
  }

  /** `testIntegration(integrationId)` where `reply` is how the request would
      end; without a token no request is made. */
  function TestIntegration(store: Store, id: string, reply: Reply): (v: Verdict)
    ensures !HasToken(store, id) ==> v == Verdict(false, NOT_CONNECTED)
    ensures v.success <==> HasToken(store, id) && reply.Answered? && ListsSources(reply.data)
    ensures HasToken(store, id) && reply.RequestThrew? ==> v.message == VERIFY_FAILED_PREFIX + reply.message
    ensures HasToken(store, id) && reply.Answered? ==> v.message == if v.success then VERIFIED else UNEXPECTED_REPLY
  {
    if !HasToken(store, id) then Verdict(false, NOT_CONNECTED)
    else match reply
      case RequestThrew(m) => Verdict(false, VERIFY_FAILED_PREFIX + m)
      case Answered(data) => if ListsSources(data) then Verdict(true, VERIFIED) else Verdict(false, UNEXPECTED_REPLY)
  }

  /** Without a token the verdict does not depend on any reply: no request
      is made. */
  lemma NoTokenNoRequest(store: Store, id: string, r1: Reply, r2: Reply)
    requires !HasToken(store, id)
    ensures TestIntegration(store, id, r1) == TestIntegration(store, id, r2)
  {
  }

  // ---- authorizeIntegration -----------------------------------------------

  const REDIRECT_URI: string := "https://oauth.pipedream.com/integrations/callback"
  /** `encodeURIComponent(REDIRECT_URI)`. */
  const REDIRECT_URI_ENCODED: string := "https%3A%2F%2Foauth.pipedream.com%2Fintegrations%2Fcallback"
  const AUTHORIZE_URL: string := "https://oauth.pipedream.com/authorize"
  const LOGOUT_URL: string := "https://oauth.pipedream.com/logout"

  const MISSING_CREDENTIALS: string :=
    "Missing Pipedream OAuth credentials. Set PIPEDREAM_CLIENT_ID and PIPEDREAM_CLIENT_SECRET."
  const VERIFICATION_FAILED: string := "OAuth verification failed."
  const NO_ACCESS_TOKEN: string := "Failed to retrieve access token."
  const EXCHANGE_FAILED_PREFIX: string := "OAuth exchange failed: "
  const CLOSED_EARLY: string := "OAuth window closed before completion."
  const CONNECTED_SUFFIX: string := " connected successfully."

  /** The URL the authorization window opens. */
  function AuthUrl(clientId: string, state: string, integrationId: string): string {
    (AUTHORIZE_URL + "?client_id=" + clientId)
      + ("&redirect_uri=" + REDIRECT_URI_ENCODED + "&response_type=code&scope=offline")
      + ("&state=" + state + "&integration=" + integrationId)
  }

  /** `!value` for a value that may be absent (an unset variable or a missing
      query parameter). */
  predicate Blank(v: Option<string>) {
    v.None? || v.value == ""
  }

  /** The state of one authorization:
      `listening`: the redirect and navigation listeners are attached;
      `windowOpen`: the window has not been closed;
      `pending`: token requests sent and not yet answered;
      `result`: what the promise resolved with, once it has. */
  datatype Flow = Flow(listening: bool, windowOpen: bool, pending: nat, result: Option<Verdict>)

  /** The flow once the window is open. */
  const OPENED: Flow := Flow(true, true, 0, None)

  /** `resolve(r)`: a promise settles once; later calls change nothing. */
  function Settle(f: Flow, r: Verdict): (g: Flow)
    ensures g.result == if f.result.Some? then f.result else Some(r)
    ensures g.listening == f.listening && g.windowOpen == f.windowOpen && g.pending == f.pending
  {
    if f.result.Some? then f else f.(result := Some(r))
  }

  /** `cleanup(r)`: the listeners go, the window closes, the promise settles. */
  function Cleanup(f: Flow, r: Verdict): (g: Flow)
    ensures !g.listening && !g.windowOpen && g.pending == f.pending
    ensures g.result == if f.result.Some? then f.result else Some(r)
  {
    Settle(f.(listening := false, windowOpen := false), r)
  }

  /** What happens in the window or at the token endpoint. `query` is the
      query of the redirect URL, parsed; a token reply carries
      `data?.access_token`. */
  datatype Event =
    | Redirect(url: string, query: map<string, string>)
    | Navigate(url: string)
    | TokenReply(token: Option<string>)
    | TokenError(message: string)
    | WindowClosed

  /** What an event causes besides the new flow: the navigation it cancels,
      the URL handed to the external browser, the code sent to the token
      endpoint, and the token saved to the keychain. */
  datatype Effects = Effects(cancelled: bool, external: Option<string>, request: Option<string>, save: Option<string>)

  const NO_EFFECTS: Effects := Effects(false, None, None, None)

  /** The redirect handler passes a URL on when it is the callback, its
      `code` is there and its `state` is the nonce of this flow. */
  predicate Verified(state: string, query: map<string, string>) {
    var code := if "code" in query then Some(query["code"]) else None;
    !Blank(code) && "state" in query && query["state"] == state
  }

  /** The redirect handler (`will-redirect`). */
  function OnRedirect(f: Flow, state: string, url: string, query: map<string, string>): (r: (Flow, Effects))
    ensures !(f.listening && f.windowOpen && StartsWith(url, REDIRECT_URI)) ==> r == (f, NO_EFFECTS)
    ensures f.listening && f.windowOpen && StartsWith(url, REDIRECT_URI) && !Verified(state, query) ==>
              r == (Cleanup(f, Verdict(false, VERIFICATION_FAILED)), Effects(true, None, None, None))
    ensures f.listening && f.windowOpen && StartsWith(url, REDIRECT_URI) && Verified(state, query) ==>
              r == (f.(pending := f.pending + 1), Effects(true, None, Some(query["code"]), None))
  {
    if !(f.listening && f.windowOpen && StartsWith(url, REDIRECT_URI)) then (f, NO_EFFECTS)
    else if !Verified(state, query) then (Cleanup(f, Verdict(false, VERIFICATION_FAILED)), Effects(true, None, None, None))
    else (f.(pending := f.pending + 1), Effects(true, None, Some(query["code"]), None))
  }

  /** The navigation handler (`will-navigate`): the logout page goes to the
      external browser, every other navigation goes ahead. */
  function OnNavigate(f: Flow, url: string): (e: Effects)
    ensures e.request.None? && e.save.None?
    ensures e.cancelled <==> f.listening && f.windowOpen && StartsWith(url, LOGOUT_URL)
    ensures e.external == if e.cancelled then Some(url) else None
  {
    if f.listening && f.windowOpen && StartsWith(url, LOGOUT_URL) then Effects(true, Some(url), None, None)
    else NO_EFFECTS
  }

  /** The end of the token request of a verified redirect: the rest of the
      redirect handler runs whether or not the flow has settled meanwhile. */
  function OnTokenReply(f: Flow, integrationId: string, token: Option<string>): (r: (Flow, Effects))
    ensures f.pending == 0 ==> r == (f, NO_EFFECTS)
    ensures f.pending > 0 && Blank(token) ==>
              r == (Cleanup(f.(pending := f.pending - 1), Verdict(false, NO_ACCESS_TOKEN)), NO_EFFECTS)
    ensures f.pending > 0 && !Blank(token) ==>
              r == (Cleanup(f.(pending := f.pending - 1), Verdict(true, integrationId + CONNECTED_SUFFIX)),
                    Effects(false, None, None, token))
  {
    if f.pending == 0 then (f, NO_EFFECTS)
    else
      var g := f.(pending := f.pending - 1);
      if Blank(token) then (Cleanup(g, Verdict(false, NO_ACCESS_TOKEN)), NO_EFFECTS)
      else (Cleanup(g, Verdict(true, integrationId + CONNECTED_SUFFIX)), Effects(false, None, None, token))
  }

  /** A token request that throws. */
  function OnTokenError(f: Flow, message: string): (g: Flow)
    ensures f.pending == 0 ==> g == f
    ensures f.pending > 0 ==> g == Cleanup(f.(pending := f.pending - 1), Verdict(false, EXCHANGE_FAILED_PREFIX + message))
  {
    if f.pending == 0 then f
    else Cleanup(f.(pending := f.pending - 1), Verdict(false, EXCHANGE_FAILED_PREFIX + message))
  }

  /** The `closed` handler: settles with the early-close message, which
      counts only if nothing settled before. */
  function OnClosed(f: Flow): (g: Flow)
    ensures !g.windowOpen && g.listening == f.listening && g.pending == f.pending
    ensures g.result == if f.result.Some? then f.result else Some(Verdict(false, CLOSED_EARLY))
  {
    Settle(f.(windowOpen := false), Verdict(false, CLOSED_EARLY))
  }

  /** One event, for the flow of `integrationId` with nonce `state`. */
  function Step(f: Flow, integrationId: string, state: string, e: Event): (Flow, Effects) {
    match e
    case Redirect(url, query) => OnRedirect(f, state, url, query)
    case Navigate(url) => (f, OnNavigate(f, url))
    case TokenReply(token) => OnTokenReply(f, integrationId, token)
    case TokenError(message) => (OnTokenError(f, message), NO_EFFECTS)
    case WindowClosed => (OnClosed(f), NO_EFFECTS)
  }

  /** The flow after a run of events. */
  function Run(f: Flow, integrationId: string, state: string, events: seq<Event>): Flow
    decreases |events|
  {
    if events == [] then f
    else Step(Run(f, integrationId, state, events[..|events| - 1]), integrationId, state, events[|events| - 1]).0
  }

  /** The tokens a run of events saves to the keychain, in order. */
  function Saves(f: Flow, integrationId: string, state: string, events: seq<Event>): seq<string>
    decreases |events|
  {
    if events == [] then []
    else
      var e := Step(Run(f, integrationId, state, events[..|events| - 1]), integrationId, state, events[|events| - 1]).1;
      Saves(f, integrationId, state, events[..|events| - 1]) + if e.save.Some? then [e.save.value] else []
  }

  /** The code requests a run of events sends, in order. */
  function Requests(f: Flow, integrationId: string, state: string, events: seq<Event>): seq<string>
    decreases |events|
  {
    if events == [] then []
    else
      var e := Step(Run(f, integrationId, state, events[..|events| - 1]), integrationId, state, events[|events| - 1]).1;
      Requests(f, integrationId, state, events[..|events| - 1]) + if e.request.Some? then [e.request.value] else []
  }

  /** The first resolution wins: once the flow has settled, no event changes
      the result. */
  lemma {:induction false} FirstResolutionWins(f: Flow, integrationId: string, state: string, events: seq<Event>)
    requires f.result.Some?
    ensures Run(f, integrationId, state, events).result == f.result
    decreases |events|
  {
    if events != [] {
      FirstResolutionWins(f, integrationId, state, events[..|events| - 1]);
    }
  }

  /** Once the listeners are gone no redirect or navigation has any effect. */
  lemma {:induction false} DetachedStaysDetached(f: Flow, integrationId: string, state: string, events: seq<Event>)
    requires !f.listening
    ensures !Run(f, integrationId, state, events).listening
    ensures Requests(f, integrationId, state, events) == []
    decreases |events|
  {
    if events != [] {
      DetachedStaysDetached(f, integrationId, state, events[..|events| - 1]);
    }
  }

  /** `code` is the code of a redirect in `events` that reached the callback
      and passed verification. */
  ghost predicate FromVerifiedRedirect(events: seq<Event>, state: string, code: string) {
    exists j :: 0 <= j < |events| && events[j].Redirect? && StartsWith(events[j].url, REDIRECT_URI) &&
                Verified(state, events[j].query) && code == events[j].query["code"]
  }

  /** Every token request carries the code of a verified redirect of the
      run: a redirect whose `state` is not the nonce never reaches the token
      endpoint. */
  lemma {:induction false} RequestsNeedVerifiedRedirects(f: Flow, integrationId: string, state: string, events: seq<Event>)
    ensures forall c :: c in Requests(f, integrationId, state, events) ==> FromVerifiedRedirect(events, state, c)
    decreases |events|
  {
    if events != [] {
      var init := events[..|events| - 1];
      var last := events[|events| - 1];
      RequestsNeedVerifiedRedirects(f, integrationId, state, init);
      var e := Step(Run(f, integrationId, state, init), integrationId, state, last).1;
      forall c | c in Requests(f, integrationId, state, events)
        ensures FromVerifiedRedirect(events, state, c)
      {
        if c in Requests(f, integrationId, state, init) {
          var j :| 0 <= j < |init| && init[j].Redirect? && StartsWith(init[j].url, REDIRECT_URI) &&
                   Verified(state, init[j].query) && c == init[j].query["code"];
          assert events[j] == init[j];
        } else {
          assert e.request == Some(c);
          assert events[|events| - 1] == last;
        }
      }
    }
  }

  /** Nothing reaches the keychain without an answered token request: from a
      flow with no requests in flight, a run saves at most as many tokens as
      it sent requests. */
  lemma {:induction false} SavesNeedRequests(f: Flow, integrationId: string, state: string, events: seq<Event>)
    ensures |Saves(f, integrationId, state, events)| + Run(f, integrationId, state, events).pending
              <= |Requests(f, integrationId, state, events)| + f.pending
    decreases |events|
  {
    if events != [] {
      SavesNeedRequests(f, integrationId, state, events[..|events| - 1]);
    }
  }

  /** A flow that resolves with success has saved a token on the way: the
      success message is only ever given after the keychain write. */
  lemma {:induction false} SuccessMeansSaved(f: Flow, integrationId: string, state: string, events: seq<Event>)
    requires f.result.None?
    ensures var r := Run(f, integrationId, state, events).result;
            r.Some? && r.value.success ==> |Saves(f, integrationId, state, events)| > 0
    decreases |events|
  {
    if events != [] {
      SuccessMeansSaved(f, integrationId, state, events[..|events| - 1]);
    }
  }

  /** The window closed before anything settled: the flow resolves with the
      early-close message. */
  lemma ClosedEarly(f: Flow, integrationId: string, state: string)
    requires f.result.None?
    ensures Step(f, integrationId, state, WindowClosed).0.result == Some(Verdict(false, CLOSED_EARLY))
  {
  }

  /** A redirect that fails verification settles the flow as failed and
      neither requests a token nor saves one. */
  lemma VerificationFailure(f: Flow, integrationId: string, state: string, url: string, query: map<string, string>)
    requires f == OPENED && StartsWith(url, REDIRECT_URI) && !Verified(state, query)
    ensures var (g, e) := Step(f, integrationId, state, Redirect(url, query));
            g.result == Some(Verdict(false, VERIFICATION_FAILED)) && e.request.None? && e.save.None? &&
            Run(g, integrationId, state, [TokenReply(Some("t"))]) == g
  {
  }

  /** The whole happy path: a verified callback, then a token. The token is
      saved under the integration's key and the flow resolves with success. */
  lemma HappyPath(integrationId: string, state: string, url: string, query: map<string, string>, token: string)
    requires StartsWith(url, REDIRECT_URI) && Verified(state, query) && token != ""
    ensures var events := [Redirect(url, query), TokenReply(Some(token))];
            && Run(OPENED, integrationId, state, events).result == Some(Verdict(true, integrationId + CONNECTED_SUFFIX))
            && Saves(OPENED, integrationId, state, events) == [token]
            && Requests(OPENED, integrationId, state, events) == [query["code"]]
  {
    var events := [Redirect(url, query), TokenReply(Some(token))];
    var first := [Redirect(url, query)];
    assert events[..1] == first;
    assert first[..0] == [];
    var f1 := OPENED.(pending := 1);
    assert Run(OPENED, integrationId, state, first) == f1;
    assert Requests(OPENED, integrationId, state, first) == [query["code"]];
    assert Saves(OPENED, integrationId, state, first) == [];
  }

  /** `authorizeIntegration` up to opening the window: without a client id
      and secret it resolves at once; otherwise the window opens at the
      authorization URL, which carries the client id, the encoded callback
      address, the code grant with offline scope, and at its end the nonce
      `state` that `Verified` later checks, followed by the integration id. */
  function Authorize(clientId: Option<string>, clientSecret: Option<string>, integrationId: string, state: string)
    : (r: Result<string, Verdict>)
    ensures r.Failure? <==> Blank(clientId) || Blank(clientSecret)
    ensures r.Failure? ==> r.error == Verdict(false, MISSING_CREDENTIALS)
    ensures r.Success? ==> StartsWith(r.value, AUTHORIZE_URL + "?client_id=" + clientId.value)
    ensures r.Success? ==> Contains(r.value, "&redirect_uri=" + REDIRECT_URI_ENCODED + "&response_type=code&scope=offline")
    ensures r.Success? ==> EndsWith(r.value, "&state=" + state + "&integration=" + integrationId)
  {
    if Blank(clientId) || Blank(clientSecret) then Failure(Verdict(false, MISSING_CREDENTIALS))
    else
      var head := AUTHORIZE_URL + "?client_id=" + clientId.value;
      var grant := "&redirect_uri=" + REDIRECT_URI_ENCODED + "&response_type=code&scope=offline";
      var tail := "&state=" + state + "&integration=" + integrationId;
      var u := AuthUrl(clientId.value, state, integrationId);
      assert u[..|head|] == head;
      ContainsMiddle(head, grant, tail);
      EndsWithLast(head + grant, tail);
      Success(u)
  }

  /** One open authorization window, with the keychain it saves to. */
  class AuthorizationSession {
    const integrationId: string
    const state: string
    const authUrl: string
    const vault: Vault
    var flow: Flow
    /** The URLs handed to `shell.openExternal`, in order. */
    var launched: seq<string>
    /** The codes sent to the token endpoint, in order. */
    var requested: seq<string>

    /** The window opens only once `Authorize` has found both credentials. */
    constructor (integrationId: string, clientId: Option<string>, clientSecret: Option<string>, state: string,
                 vault: Vault)
      requires Authorize(clientId, clientSecret, integrationId, state).Success?
      ensures this.integrationId == integrationId && this.state == state && this.vault == vault
      ensures authUrl == Authorize(clientId, clientSecret, integrationId, state).value
      ensures flow == OPENED && launched == [] && requested == []
    {
      this.integrationId := integrationId;
      this.state := state;
      this.authUrl := AuthUrl(clientId.value, state, integrationId);
      this.vault := vault;
      flow := OPENED;
      launched := [];
      requested := [];
    }

    /** `will-redirect`; returns whether the redirect was cancelled. */
    method OnWillRedirect(url: string, query: map<string, string>) returns (cancelled: bool)
      modifies this
      ensures var (g, e) := OnRedirect(old(flow), state, url, query);
              && flow == g && cancelled == e.cancelled
              && requested == old(requested) + (if e.request.Some? then [e.request.value] else [])
      ensures launched == old(launched)
    {
      if !(flow.listening && flow.windowOpen && StartsWith(url, REDIRECT_URI)) {
        return false;
      }
      cancelled := true;
      var code := if "code" in query then Some(query["code"]) else None;
      if Blank(code) || !("state" in query && query["state"] == state) {
        flow := Cleanup(flow, Verdict(false, VERIFICATION_FAILED));
        return;
      }
      requested := requested + [code.value];
      flow := flow.(pending := flow.pending + 1);
    }

    /** `will-navigate`; returns whether the navigation was cancelled. */
    method OnWillNavigate(url: string) returns (cancelled: bool)
      modifies this
      ensures var e := OnNavigate(old(flow), url);
              && cancelled == e.cancelled
              && launched == old(launched) + (if e.external.Some? then [e.external.value] else [])
      ensures flow == old(flow) && requested == old(requested)
    {
      cancelled := flow.listening && flow.windowOpen && StartsWith(url, LOGOUT_URL);
      if cancelled {
        launched := launched + [url];
      }
    }

    /** The token endpoint answered one request with `data?.access_token`. */
    method ReceiveToken(token: Option<string>)
      modifies this, vault
      ensures var (g, e) := OnTokenReply(old(flow), integrationId, token);
              && flow == g
              && vault.store == (if e.save.Some? then Saved(old(vault.store), CredentialKey(integrationId), e.save)
                                 else old(vault.store))
      ensures launched == old(launched) && requested == old(requested)
    {
      if flow.pending == 0 {
        return;
      }
      var f := flow.(pending := flow.pending - 1);
      if Blank(token) {
        flow := Cleanup(f, Verdict(false, NO_ACCESS_TOKEN));
        return;
      }
      var _ := vault.SaveCredential(CredentialKey(integrationId), token);
      flow := Cleanup(f, Verdict(true, integrationId + CONNECTED_SUFFIX));
    }

    /** The token request threw with `message`. */
    method ReceiveTokenError(message: string)
      modifies this
      ensures flow == OnTokenError(old(flow), message)
      ensures launched == old(launched) && requested == old(requested)
    {
      if flow.pending > 0 {
        flow := Cleanup(flow.(pending := flow.pending - 1), Verdict(false, EXCHANGE_FAILED_PREFIX + message));
      }
    }

    /** The window's `closed` event. */
    method OnWindowClosed()
      modifies this
      ensures flow == OnClosed(old(flow))
      ensures launched == old(launched) && requested == old(requested)
    {
      flow := Settle(flow.(windowOpen := false), Verdict(false, CLOSED_EARLY));
    }

    /** What the promise has resolved with, if it has. */
    function Result(): (r: Option<Verdict>)
      reads this
      ensures r == flow.result
    {
      flow.result
    }
  }
}
