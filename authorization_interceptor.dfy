/** The client-side authorization interceptor: a before-send hook that asks the
    token service to refresh before every guarded request, an after-send hook
    that reacts to 401 responses, and the register/dispose lifecycle that
    attaches both hooks to the shared HTTP client interceptor.

    The collaborators are abstract. The token service's refresh is an oracle
    (a `RefreshOutcome` parameter); the refresh call, the snackbar, the logout
    and the navigation are entries appended to one shared `EffectLog`.
 */
module AuthorizationInterceptor {
  import opened UriExemption
  import opened Wrappers

  /** MudBlazor's snackbar severities. */
  datatype Severity = Normal | Info | Success | Warning | Error

  /** The observable effects of the hooks on their collaborators. */
  datatype Effect =
    | RefreshRequested                                 // tokenService.TryRefreshTokenAsync()
    | SnackbarShown(message: string, severity: Severity) // snackbar.Add(message, severity)
    | LoggedOut                                        // tokenService.LogoutAsync()
    | NavigatedTo(uri: string)                         // navigationManager.NavigateTo(uri)

  /** What the token service's refresh does: succeed, throw
      RefreshTokenFailedException, or throw any other exception. */
  datatype RefreshOutcome = Refreshed | RefreshTokenFailed | OtherFailure

  /** How a hook's task ends: normally, or faulted by an exception it does not catch. */
  datatype HookOutcome = Completed | Faulted

  const SessionExpiredMessage: string := "Your session has expired. Please login again."
  const LoginPage: string := "/login"
  const StatusUnauthorized: int := 401

  /** The teardown both hooks perform, in this order: error snackbar, logout, navigation to the login page. */
  const Teardown: seq<Effect> := [SnackbarShown(SessionExpiredMessage, Error), LoggedOut, NavigatedTo(LoginPage)]

  /** A request the hooks act on: its absolute URI is known and carries no exempt marker. */
  predicate Guarded(absoluteUri: Option<string>)
    ensures Guarded(absoluteUri) <==>
      absoluteUri.Some?
      && !(exists i :: OccursAt(absoluteUri.value, LoginMarker, i))
      && !(exists i :: OccursAt(absoluteUri.value, RefreshMarker, i))
      && !(exists i :: OccursAt(absoluteUri.value, SearchMarker, i))
  {
    absoluteUri.Some? && !IsExempt(absoluteUri.value)
  }

  /** The after-send hook's own early-return condition, written as a single disjunction. */
  predicate AfterSendBypassed(absoluteUri: Option<string>)
    ensures AfterSendBypassed(absoluteUri) <==> absoluteUri.None? || IsExempt(absoluteUri.value)
  {
    absoluteUri == None
    || Contains(absoluteUri.value, LoginMarker)
    || Contains(absoluteUri.value, RefreshMarker)
    || Contains(absoluteUri.value, SearchMarker)
  }

  /** The effects of the before-send hook on a request with this URI, when the refresh does what the oracle says. */
  function BeforeSendEffects(absoluteUri: Option<string>, refresh: RefreshOutcome): (r: seq<Effect>)
    ensures r != [] <==> Guarded(absoluteUri)
    ensures RefreshRequested in r <==> Guarded(absoluteUri)
    ensures r != [] ==> r[0] == RefreshRequested && RefreshRequested !in r[1..]
    ensures LoggedOut in r <==> Guarded(absoluteUri) && refresh == RefreshTokenFailed
    ensures LoggedOut in r ==> r[1..] == Teardown
    ensures LoggedOut !in r ==> |r| <= 1
  {
    match absoluteUri
    case None => []
    case Some(uri) =>
      if IsExempt(uri) then []
      else [RefreshRequested] + (if refresh == RefreshTokenFailed then Teardown else [])
  }

  /** The effects of the after-send hook; `status` is None when there is no response. */
  function AfterSendEffects(absoluteUri: Option<string>, status: Option<int>): (r: seq<Effect>)
    ensures r == [] || r == Teardown
    ensures r == Teardown <==> Guarded(absoluteUri) && status == Some(StatusUnauthorized)
    ensures RefreshRequested !in r
  {
    if AfterSendBypassed(absoluteUri) then []
    else if status == Some(StatusUnauthorized) then Teardown
    else []
  }

  /** How the before-send hook's task ends. Only a failure other than
      RefreshTokenFailedException escapes, and it escapes after the refresh
      request and before any snackbar, logout or navigation; the caught
      failure ends the task normally. */
  function BeforeSendOutcome(absoluteUri: Option<string>, refresh: RefreshOutcome): (r: HookOutcome)
    ensures r == Faulted <==> Guarded(absoluteUri) && refresh == OtherFailure
    ensures r == Faulted ==> BeforeSendEffects(absoluteUri, refresh) == [RefreshRequested]
    ensures LoggedOut in BeforeSendEffects(absoluteUri, refresh) ==> r == Completed
  {
    if Guarded(absoluteUri) && refresh == OtherFailure then Faulted else Completed
  }

  /** The teardown is one error snackbar with the session-expired text, one
      logout and one navigation to the login page, in that order. */
  lemma TeardownShape()
    ensures |Teardown| == 3
    ensures Teardown[0] == SnackbarShown(SessionExpiredMessage, Error)
    ensures multiset(Teardown)[LoggedOut] == 1
    ensures multiset(Teardown)[NavigatedTo(LoginPage)] == 1
    ensures forall e :: e in Teardown && e.SnackbarShown? ==> e == Teardown[0]
    ensures Teardown[0].SnackbarShown? && Teardown[0].severity == Error
    ensures Teardown[1] == LoggedOut && Teardown[2] == NavigatedTo(LoginPage)
  {
  }

  /** Both hooks skip exactly the same requests: the before-send hook's two
      early returns and the after-send hook's single one agree. */
  lemma HooksAgreeOnExemption(absoluteUri: Option<string>, refresh: RefreshOutcome, status: Option<int>)
    ensures AfterSendBypassed(absoluteUri) <==> !Guarded(absoluteUri)
    ensures AfterSendBypassed(absoluteUri) ==> BeforeSendEffects(absoluteUri, refresh) == [] && AfterSendEffects(absoluteUri, status) == []
    ensures !AfterSendBypassed(absoluteUri) ==> BeforeSendEffects(absoluteUri, refresh)[0] == RefreshRequested
  {
  }

  /** The effects of one request that passes through both hooks. */
  function RoundTripEffects(absoluteUri: Option<string>, refresh: RefreshOutcome, status: Option<int>): seq<Effect>
  {
    BeforeSendEffects(absoluteUri, refresh) + AfterSendEffects(absoluteUri, status)
  }

  /** The before-send hook catches RefreshTokenFailedException and then returns
      normally, so nothing it does stops the request from being sent. When that
      request comes back 401, the session is torn down a second time. */
  lemma RefreshFailureThenUnauthorizedTearsDownTwice(uri: string)
    requires !IsExempt(uri)
    ensures RoundTripEffects(Some(uri), RefreshTokenFailed, Some(StatusUnauthorized))
         == [RefreshRequested] + Teardown + Teardown
    ensures multiset(RoundTripEffects(Some(uri), RefreshTokenFailed, Some(StatusUnauthorized)))[LoggedOut] == 2
  {
    var r := RoundTripEffects(Some(uri), RefreshTokenFailed, Some(StatusUnauthorized));
    assert r == [RefreshRequested] + Teardown + Teardown;
    assert multiset(r) == multiset{RefreshRequested} + multiset(Teardown) + multiset(Teardown);
  }

  /** `r` is `s` without its element at `i`, which is the last occurrence of `x`. */
  ghost predicate RemovedAt<T>(s: seq<T>, x: T, i: int, r: seq<T>) {
    0 <= i < |s| && s[i] == x && x !in s[i + 1..] && r == s[..i] + s[i + 1..]
  }

  /** C#'s event `-=` (Delegate.Remove): the LAST occurrence of `x` is removed;
      when `x` does not occur the list is unchanged. */
  function RemoveLast<T(==)>(s: seq<T>, x: T): (r: seq<T>)
    ensures x !in s ==> r == s
    ensures x in s ==> exists i :: RemovedAt(s, x, i, r)
    decreases |s|
  {
    if s == [] then s
    else if s[|s| - 1] == x then
      assert RemovedAt(s, x, |s| - 1, s[..|s| - 1]);
      s[..|s| - 1]
    else
      var init := s[..|s| - 1];
      var last := s[|s| - 1];
      assert s == init + [last];
      if x in init then
        var r := RemoveLast(init, x) + [last];
        assert exists j :: RemovedAt(s, x, j, r) by {
          var i :| RemovedAt(init, x, i, RemoveLast(init, x));
          assert s[i + 1..] == init[i + 1..] + [last];
          assert RemovedAt(s, x, i, r);
        }
        r
      else
        assert x !in s;
        s
  }

  /** Removal takes away exactly one registration of `x`, if there is one, and nothing else. */
  lemma {:induction false} RemoveLastCounts<T>(s: seq<T>, x: T)
    ensures multiset(RemoveLast(s, x)) == multiset(s) - multiset{x}
    ensures |RemoveLast(s, x)| == if x in s then |s| - 1 else |s|
  {
    var r := RemoveLast(s, x);
    if x in s {
      var i :| RemovedAt(s, x, i, r);
      var left, right := s[..i], s[i + 1..];
      assert s == left + [x] + right;
      calc {
        multiset(s);
        multiset(left + [x] + right);
        multiset(left) + multiset{x} + multiset(right);
      }
      assert multiset(r) == multiset(left) + multiset(right);
    } else {
      assert multiset(s)[x] == 0;
    }
  }

  /** Registering and then removing a handler leaves the list as it was. */
  lemma {:induction false} RemoveLastAfterAppend<T>(s: seq<T>, x: T)
    ensures RemoveLast(s + [x], x) == s
  {
    var t := s + [x];
    assert t[|t| - 1] == x && t[..|t| - 1] == s;
  }

  /** Removal after a single registration detaches the handler completely; after
      two registrations of the same handler one stays attached. */
  lemma {:induction false} RemoveLastDetaches<T>(s: seq<T>, x: T)
    ensures multiset(s)[x] == 1 ==> x !in RemoveLast(s, x)
    ensures multiset(s)[x] >= 2 ==> x in RemoveLast(s, x)
  {
    RemoveLastCounts(s, x);
    assert x in RemoveLast(s, x) <==> multiset(RemoveLast(s, x))[x] > 0;
  }

  /** The observable effects of the collaborators (token service, snackbar, navigation manager), in order. */
  class EffectLog {
    var entries: seq<Effect>

    constructor ()
      ensures entries == []
    {
      entries := [];
    }

    method Record(e: Effect)
      modifies this
      ensures entries == old(entries) + [e]
    {
      entries := entries + [e];
    }
  }

  /** The shared HTTP client interceptor's two events: each is the ordered list
      of the handlers attached to it, a handler identified by the object it belongs to. */
  class HttpClientInterceptor {
    var beforeSend: seq<HttpAuthorizationInterceptor>
    var afterSend: seq<HttpAuthorizationInterceptor>

    constructor ()
      ensures beforeSend == [] && afterSend == []
    {
      beforeSend, afterSend := [], [];
    }
  }

  class HttpAuthorizationInterceptor {
    const httpClientInterceptor: HttpClientInterceptor
    const log: EffectLog
    var disposed: bool

    constructor (httpClientInterceptor: HttpClientInterceptor, log: EffectLog)
      ensures this.httpClientInterceptor == httpClientInterceptor && this.log == log
      ensures !disposed
    {
      this.httpClientInterceptor := httpClientInterceptor;
      this.log := log;
      disposed := false;
    }

    /** Attaches both hooks, unless this interceptor has been disposed. */
    method RegisterEvents()
      modifies httpClientInterceptor
      ensures disposed ==> unchanged(httpClientInterceptor)
      ensures !disposed ==> httpClientInterceptor.beforeSend == old(httpClientInterceptor.beforeSend) + [this]
      ensures !disposed ==> httpClientInterceptor.afterSend == old(httpClientInterceptor.afterSend) + [this]
    {
      if disposed {
        return;
      }
      httpClientInterceptor.beforeSend := httpClientInterceptor.beforeSend + [this];
      httpClientInterceptor.afterSend := httpClientInterceptor.afterSend + [this];
    }

    /** The before-send hook: a guarded request asks for a refresh, and a
        refresh that fails with RefreshTokenFailed tears the session down. */
    method InterceptBeforeHttp(absoluteUri: Option<string>, refresh: RefreshOutcome) returns (outcome: HookOutcome)
      modifies log
      ensures log.entries == old(log.entries) + BeforeSendEffects(absoluteUri, refresh)
      ensures outcome == BeforeSendOutcome(absoluteUri, refresh)
    {
      if absoluteUri == None {
        return Completed;
      }
      var uri := absoluteUri.value;
      if Contains(uri, LoginMarker) || Contains(uri, RefreshMarker) || Contains(uri, SearchMarker) {
        return Completed;
      }
      log.Record(RefreshRequested);
      if refresh == OtherFailure {
        return Faulted;
      }
      if refresh == RefreshTokenFailed {
        log.Record(SnackbarShown(SessionExpiredMessage, Error));
        log.Record(LoggedOut);
        log.Record(NavigatedTo(LoginPage));
      }
      return Completed;
    }

    /** The after-send hook: a guarded request answered with 401 tears the session down. */
    method InterceptAfterHttp(absoluteUri: Option<string>, status: Option<int>)
      modifies log
      ensures log.entries == old(log.entries) + AfterSendEffects(absoluteUri, status)
    {
      if absoluteUri == None
        || Contains(absoluteUri.value, LoginMarker)
        || Contains(absoluteUri.value, RefreshMarker)
        || Contains(absoluteUri.value, SearchMarker)
      {
        return;
      }
      if status == Some(StatusUnauthorized) {
        log.Record(SnackbarShown(SessionExpiredMessage, Error));
        log.Record(LoggedOut);
        log.Record(NavigatedTo(LoginPage));
      }
    }

    /** Detaches the last registration of each hook, disposed or not. */
    method DisposeEvents()
      modifies httpClientInterceptor
      ensures httpClientInterceptor.beforeSend == RemoveLast(old(httpClientInterceptor.beforeSend), this)
      ensures httpClientInterceptor.afterSend == RemoveLast(old(httpClientInterceptor.afterSend), this)
    {
      httpClientInterceptor.beforeSend := RemoveLast(httpClientInterceptor.beforeSend, this);
      httpClientInterceptor.afterSend := RemoveLast(httpClientInterceptor.afterSend, this);
    }

    /** Public disposal: the first call detaches both hooks and marks this
        interceptor disposed; later calls change nothing. */
    method Dispose()
      modifies this, httpClientInterceptor
      ensures disposed
      ensures old(disposed) ==> unchanged(httpClientInterceptor)
      ensures !old(disposed) ==> httpClientInterceptor.beforeSend == RemoveLast(old(httpClientInterceptor.beforeSend), this)
      ensures !old(disposed) ==> httpClientInterceptor.afterSend == RemoveLast(old(httpClientInterceptor.afterSend), this)
    {
      DisposeCore(true);
    }

    /** The protected disposal pattern: `disposing` says whether managed
        resources (the hook registrations) are released. */
    method DisposeCore(disposing: bool)
      modifies this, httpClientInterceptor
      ensures disposed
      ensures old(disposed) || !disposing ==> unchanged(httpClientInterceptor)
      ensures !old(disposed) && disposing ==> httpClientInterceptor.beforeSend == RemoveLast(old(httpClientInterceptor.beforeSend), this)
      ensures !old(disposed) && disposing ==> httpClientInterceptor.afterSend == RemoveLast(old(httpClientInterceptor.afterSend), this)
    {
      if disposed {
        return;
      }
      if disposing {
        DisposeEvents();
      }
      disposed := true;
    }
  }

  /** A page's lifetime: a fresh interceptor registers, is disposed twice and
      tries to register again; the shared event lists end as they began and
      nothing is logged. */
  method PageLifetime(httpClientInterceptor: HttpClientInterceptor, log: EffectLog)
    modifies httpClientInterceptor
    ensures httpClientInterceptor.beforeSend == old(httpClientInterceptor.beforeSend)
    ensures httpClientInterceptor.afterSend == old(httpClientInterceptor.afterSend)
    ensures log.entries == old(log.entries)
  {
    var interceptor := new HttpAuthorizationInterceptor(httpClientInterceptor, log);
    interceptor.RegisterEvents();
    RemoveLastAfterAppend(old(httpClientInterceptor.beforeSend), interceptor);
    RemoveLastAfterAppend(old(httpClientInterceptor.afterSend), interceptor);
    interceptor.Dispose();
    interceptor.Dispose();
    interceptor.RegisterEvents();
  }
}
