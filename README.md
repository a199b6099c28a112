# Expensive: session guard and lookup-type routing, modelled in Dafny

This project models two pieces of decision logic from the Expensive
line-of-business application.

The first is the Blazor client's `HttpAuthorizationInterceptor`. It hooks into
the shared HTTP client interceptor and sorts every outgoing request into one of
two kinds:

- **Exempt:** the absolute URI contains `api/token/login`, `api/token/refresh`
  or `search`. This is an ordinal, case-sensitive substring test.
- **Guarded:** every other request whose URI is known.

For a guarded request, the before-send hook asks the token service to refresh.
If the refresh throws `RefreshTokenFailedException`, the hook tears the session
down. The after-send hook does the same teardown when a guarded request comes
back `401 Unauthorized`. The teardown is always the same three steps, in this
order:

1. an error snackbar saying "Your session has expired. Please login again.";
2. a logout;
3. navigation to `/login`.

The interceptor's lifecycle attaches the two hooks (`RegisterEvents`) and
detaches them (`DisposeEvents`, `Dispose`). A `_disposed` flag makes disposal
happen at most once and stops registration after disposal.

The second is the server's `LookupTypeController`. Its route segment
`expense-types` or `payment-methods` selects a `LookupTypeCategory`. Any other
segment throws an `ArgumentException` before the lookup-type service is called.
The list action forwards the category, `page` (default 1), `pageSize`
(default 10) and `searchText` (default none) to the service.

Files:

- `uri_exemption.dfy` (module `UriExemption`): the substring test and the
  exemption predicate, with lemmas about which URIs are exempt.
- `authorization_interceptor.dfy` (module `AuthorizationInterceptor`): the
  effects of the two hooks, as specification functions. It also has three
  classes:
  - `HttpClientInterceptor`: the two event handler lists.
  - `EffectLog`: what the collaborators observably did.
  - `HttpAuthorizationInterceptor`: the hooks and the lifecycle as methods
    proved against those functions.
- `wrappers.dfy` (module `Wrappers`): the optional value shared by the client
  and the server models.
- `lookup_types.dfy` (module `LookupTypes`): the category parser, its inverse,
  and the list action's forwarding.

How the collaborators are abstracted:

- The token service's refresh is an oracle parameter. It can succeed, throw
  `RefreshTokenFailedException`, or throw any other exception.
- The refresh request, the snackbar, the logout and the navigation are entries
  appended to one shared effect log.
- An event's handler list is a sequence of the interceptor objects attached to
  it. The `-=` operator is C#'s `Delegate.Remove`, which removes the last
  occurrence.

### Behaviour worth knowing

- **Exemption:** exemption is by substring anywhere in the absolute URI, not by
  matching the endpoint's route. `SearchAnywhereExempts` proves that "search" anywhere exempts
  a request, including in a query parameter.
- **Refresh failure:** the before-send hook catches
  `RefreshTokenFailedException`, tears the session down and returns normally,
  so nothing it does stops the request from being sent. A refresh failure and a
  401 on the same request each trigger their own teardown.
  `RefreshFailureThenUnauthorizedTearsDownTwice` shows the result: a failed
  refresh followed by a 401 on the same request logs two logouts.
- **Refresh internals:** there is no single-flight refresh, no in-flight
  coalescing and no credential attachment in the interceptor. What the token
  service does inside a refresh is not visible.

## Model

| member | source | states |
|---|---|---|
| UriExemption.Contains | src/Expensive.UI/Services/HttpAuthorizationInterceptor.cs:31-33 | the left-to-right substring search returns true exactly when the pattern occurs at some index of the URI |
| UriExemption.TokenEndpointsExempt | src/Expensive.UI/Services/HttpAuthorizationInterceptor.cs:31-32 | any URI containing the login or the refresh endpoint path is exempt, whatever precedes and follows it |
| UriExemption.SearchAnywhereExempts | src/Expensive.UI/Services/HttpAuthorizationInterceptor.cs:33 | "search" anywhere in the absolute URI, in the path or the query, makes the request exempt |
| UriExemption.PaymentMethodSearchExempt | src/Expensive.UI/Services/Http/SearchService.cs:13 | the payment-method search request is exempt for every base address and every search term |
| UriExemption.ExpenseTypeSearchExempt | src/Expensive.UI/Services/Http/SearchService.cs:20 | the expense-type search request is exempt for every base address and every search term |
| UriExemption.IsExempt | src/Expensive.UI/Services/HttpAuthorizationInterceptor.cs:31-33 | a URI is exempt exactly when the login path, the refresh path or "search" occurs at some index of it |
| AuthorizationInterceptor.Guarded | src/Expensive.UI/Services/HttpAuthorizationInterceptor.cs:28-34 | the before-send hook acts on a request exactly when its absolute URI is present and none of the three markers occurs anywhere in it |
| AuthorizationInterceptor.AfterSendBypassed | src/Expensive.UI/Services/HttpAuthorizationInterceptor.cs:51-54 | the after-send hook's early return is taken exactly when the URI is null or exempt by the shared exemption test |
| AuthorizationInterceptor.BeforeSendEffects | src/Expensive.UI/Services/HttpAuthorizationInterceptor.cs:26-46 | a null or exempt URI produces no effect at all; a guarded one requests exactly one refresh, first; a logout happens iff the URI is guarded and the refresh failed with RefreshTokenFailedException, and then the effects after the refresh are exactly snackbar, logout, navigate to /login; otherwise nothing follows the refresh |
| AuthorizationInterceptor.BeforeSendOutcome | src/Expensive.UI/Services/HttpAuthorizationInterceptor.cs:35-45 | the hook's task faults exactly when a guarded request's refresh throws an exception other than RefreshTokenFailedException (which is not caught); a faulting hook has requested the refresh and done nothing else (no snackbar, logout or navigation); a hook that logged out completes normally |
| AuthorizationInterceptor.AfterSendEffects | src/Expensive.UI/Services/HttpAuthorizationInterceptor.cs:48-62 | the after-send hook produces either nothing or the full teardown, the teardown exactly when the URI is guarded and the response status is 401; a missing response or any other status produces nothing, and it never requests a refresh |
| AuthorizationInterceptor.TeardownShape | src/Expensive.UI/Services/HttpAuthorizationInterceptor.cs:42-44 | the teardown has exactly three entries: the error-severity snackbar with the text "Your session has expired. Please login again.", then one logout, then one navigation to /login; it shows no other snackbar and logs out and navigates once each |
| AuthorizationInterceptor.HooksAgreeOnExemption | src/Expensive.UI/Services/HttpAuthorizationInterceptor.cs:28-55 | the after-send hook's single early-return test holds exactly when the before-send hook's two early returns apply, so a request skipped by one hook is skipped by the other |
| AuthorizationInterceptor.RefreshFailureThenUnauthorizedTearsDownTwice | src/Expensive.UI/Services/HttpAuthorizationInterceptor.cs:35-61 | for a guarded URI whose refresh fails and whose response is 401, the two hooks together log one refresh and the teardown twice, so two logouts |
| AuthorizationInterceptor.RemoveLast | src/Expensive.UI/Services/HttpAuthorizationInterceptor.cs:66-67 | removing a handler deletes its last occurrence and keeps the order of the rest; a handler that is not attached leaves the list unchanged |
| AuthorizationInterceptor.RemoveLastCounts | src/Expensive.UI/Services/HttpAuthorizationInterceptor.cs:66-67 | removal takes away exactly one registration of the handler if it has any, and no other handler |
| AuthorizationInterceptor.RemoveLastAfterAppend | src/Expensive.UI/Services/HttpAuthorizationInterceptor.cs:22-23 | attaching a handler and then removing it restores the handler list exactly |
| AuthorizationInterceptor.RemoveLastDetaches | src/Expensive.UI/Services/HttpAuthorizationInterceptor.cs:64-68 | removal after a single registration detaches the handler completely; after two registrations one remains attached |
| AuthorizationInterceptor.HttpAuthorizationInterceptor.constructor | src/Expensive.UI/Services/HttpAuthorizationInterceptor.cs:10-16 | a new interceptor holds its collaborators and is not disposed |
| AuthorizationInterceptor.HttpAuthorizationInterceptor.RegisterEvents | src/Expensive.UI/Services/HttpAuthorizationInterceptor.cs:18-24 | after disposal nothing changes; before it, exactly one before-send and one after-send handler of this interceptor are appended |
| AuthorizationInterceptor.HttpAuthorizationInterceptor.InterceptBeforeHttp | src/Expensive.UI/Services/HttpAuthorizationInterceptor.cs:26-46 | the effect log grows by exactly BeforeSendEffects of the URI and refresh outcome, and the task ends as BeforeSendOutcome says |
| AuthorizationInterceptor.HttpAuthorizationInterceptor.InterceptAfterHttp | src/Expensive.UI/Services/HttpAuthorizationInterceptor.cs:48-62 | the effect log grows by exactly AfterSendEffects of the URI and response status |
| AuthorizationInterceptor.HttpAuthorizationInterceptor.DisposeEvents | src/Expensive.UI/Services/HttpAuthorizationInterceptor.cs:64-68 | each event list loses the last registration of this interceptor, whether or not it is disposed |
| AuthorizationInterceptor.HttpAuthorizationInterceptor.Dispose | src/Expensive.UI/Services/HttpAuthorizationInterceptor.cs:70-74 | afterwards the interceptor is disposed; the first call detaches both handlers, and any later call leaves the event lists unchanged |
| AuthorizationInterceptor.HttpAuthorizationInterceptor.DisposeCore | src/Expensive.UI/Services/HttpAuthorizationInterceptor.cs:76-87 | sets the disposed flag; the handlers are detached only on the first call and only when disposing is true |
| AuthorizationInterceptor.PageLifetime | src/Expensive.UI/Services/HttpAuthorizationInterceptor.cs:18-87 | a fresh interceptor that registers, is disposed twice and registers again leaves both event lists as they were and logs nothing |
| LookupTypes.CategorySegment | src/Personals.LookupTypes/Controllers/LookupTypeController.cs:55-60 | each category has one of the two accepted route segments |
| LookupTypes.GetLookupTypeCategoryFromString | src/Personals.LookupTypes/Controllers/LookupTypeController.cs:53-61 | "expense-types" gives ExpenseType and "payment-methods" gives PaymentMethod, each in both directions; every other string is rejected with the invalid-category message |
| LookupTypes.ParseSegmentRoundTrip | src/Personals.LookupTypes/Controllers/LookupTypeController.cs:57-58 | parsing a category's own segment yields that category |
| LookupTypes.AcceptedSegmentRoundTrip | src/Personals.LookupTypes/Controllers/LookupTypeController.cs:55-60 | every accepted segment is the segment of the category it yields |
| LookupTypes.ParseInjective | src/Personals.LookupTypes/Controllers/LookupTypeController.cs:55-60 | two segments that parse to the same category are the same string |
| LookupTypes.RejectsNearMisses | src/Personals.LookupTypes/Controllers/LookupTypeController.cs:59 | the empty string, case variants and singular forms are rejected |
| LookupTypes.GetSpecifiedLookupTypes | src/Personals.LookupTypes/Controllers/LookupTypeController.cs:14-21 | an invalid segment fails with the parser's error and no service call; otherwise the service receives the parsed category, the given page, page size and search text unchanged, with 1 and 10 when page and page size are absent |
| LookupTypes.DefaultsApply | src/Personals.LookupTypes/Controllers/LookupTypeController.cs:16-17 | a request that names only the category is forwarded with page 1, page size 10 and no search text |

## Left out

- Token service internals (`TryRefreshTokenAsync`, `LogoutAsync`, token storage) are not part of this model. The refresh is an oracle outcome and the logout is a logged effect. A logout that throws is not modelled.
- Async/await and concurrent firing of the hooks are not modelled. The code has no synchronization, so each hook runs here as one sequential step.
- How the shared HTTP client interceptor fires its handlers is not modelled. It is a third-party library that is not part of this model. The hooks are called directly with the request's absolute URI (None when the request has no URI) and the response's status (None when there is no response).
- `Uri.AbsoluteUri` normalisation is not modelled. The hooks receive the absolute URI as a string.
- `Console.WriteLine` of the caught exception is not modelled. It is console output.
- `GC.SuppressFinalize` is not modelled. It is a runtime call with no observable effect on the interceptor's state.
- The other controller actions (get by id, create, update, delete) are not modelled. They only forward to the service and wrap the result.
- The `[Permission]` and routing attributes are not modelled. They are framework configuration.
- The `Ok(...)` result wrapping of the list action is not modelled. The model stops at the service call the action makes.
- Single-flight refresh, coalescing of concurrent logouts and bearer-token attachment are not modelled. None of them appears in the interceptor's code.
