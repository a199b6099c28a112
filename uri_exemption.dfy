/** The exemption test of the client-side authorization interceptor: a request
    URI is exempt from refresh and from the 401 teardown when it contains the
    login endpoint, the refresh endpoint or the word "search", by a plain
    ordinal (case-sensitive) substring test.
 */
module UriExemption {

  const LoginMarker: string := "api/token/login"
  const RefreshMarker: string := "api/token/refresh"
  const SearchMarker: string := "search"

  /** `sub` occurs in `s` starting at index `i`. */
  ghost predicate OccursAt(s: string, sub: string, i: int) {
    0 <= i && i + |sub| <= |s| && s[i..i + |sub|] == sub
  }

  /** The ordinal substring test (`string.Contains`), searched from the left. */
  function Contains(s: string, sub: string): (r: bool)
    ensures r <==> exists i :: OccursAt(s, sub, i)
    decreases |s|
  {
    if |s| < |sub| then false
    else if s[..|sub|] == sub then
      assert OccursAt(s, sub, 0);
      true
    else
      OccursInTail(s, sub);
      Contains(s[1..], sub)
  }

  /** Once `sub` does not start `s`, it occurs in `s` exactly when it occurs in `s[1..]`. */
  lemma OccursInTail(s: string, sub: string)
    requires |s| >= |sub| && s[..|sub|] != sub
    ensures (exists i :: OccursAt(s, sub, i)) <==> (exists j :: OccursAt(s[1..], sub, j))
  {
    if exists i :: OccursAt(s, sub, i) {
      var i :| OccursAt(s, sub, i);
      assert i != 0;
      assert s[1..][i - 1..i - 1 + |sub|] == s[i..i + |sub|];
      assert OccursAt(s[1..], sub, i - 1);
    }
    if exists j :: OccursAt(s[1..], sub, j) {
      var j :| OccursAt(s[1..], sub, j);
      assert s[j + 1..j + 1 + |sub|] == s[1..][j..j + |sub|];
      assert OccursAt(s, sub, j + 1);
    }
  }

  /** A substring of the middle part of a concatenation is a substring of the whole. */
  lemma ContainsInConcat(a: string, b: string, c: string, sub: string)
    requires Contains(b, sub)
    ensures Contains(a + b + c, sub)
  {
    var i :| OccursAt(b, sub, i);
    var s := a + b + c;
    assert s[|a| + i..|a| + i + |sub|] == b[i..i + |sub|];
    assert OccursAt(s, sub, |a| + i);
  }

  /** The test both hooks apply before acting: a URI holding any of the three markers is exempt. */
  predicate IsExempt(absoluteUri: string)
    ensures IsExempt(absoluteUri) <==>
      (exists i :: OccursAt(absoluteUri, LoginMarker, i))
      || (exists i :: OccursAt(absoluteUri, RefreshMarker, i))
      || (exists i :: OccursAt(absoluteUri, SearchMarker, i))
  {
    Contains(absoluteUri, LoginMarker)
    || Contains(absoluteUri, RefreshMarker)
    || Contains(absoluteUri, SearchMarker)
  }

  /** Every string contains itself. */
  lemma ContainsItself(sub: string)
    ensures Contains(sub, sub)
  {
    assert OccursAt(sub, sub, 0);
  }

  /** Calls to the login and refresh endpoints are exempt, whatever the base
      address in front and whatever query follows. */
  lemma TokenEndpointsExempt(baseAddress: string, suffix: string)
    ensures IsExempt(baseAddress + LoginMarker + suffix)
    ensures IsExempt(baseAddress + RefreshMarker + suffix)
  {
    ContainsItself(LoginMarker);
    ContainsInConcat(baseAddress, LoginMarker, suffix, LoginMarker);
    ContainsItself(RefreshMarker);
    ContainsInConcat(baseAddress, RefreshMarker, suffix, RefreshMarker);
  }

  /** The test is a plain substring test: "search" anywhere in the absolute URI,
      in the path or in a query parameter, exempts the request. */
  lemma SearchAnywhereExempts(prefix: string, suffix: string)
    ensures IsExempt(prefix + SearchMarker + suffix)
  {
    ContainsItself(SearchMarker);
    ContainsInConcat(prefix, SearchMarker, suffix, SearchMarker);
  }

  /** The two relative URIs requested by the client's search service, written
      around the word that makes them exempt. */
  const LookupTypesPrefix: string := "api/lookup-types/"
  const PaymentMethodSearchPath: string := LookupTypesPrefix + SearchMarker + "/payment-methods?searchTerm="
  const ExpenseTypeSearchPath: string := LookupTypesPrefix + SearchMarker + "/expense-types?searchTerm="

  /** The payment-method search URI is exempt for every base address and every search term. */
  lemma PaymentMethodSearchExempt(baseAddress: string, searchTerm: string)
    ensures IsExempt(baseAddress + PaymentMethodSearchPath + searchTerm)
  {
    var rest := "/payment-methods?searchTerm=";
    assert baseAddress + PaymentMethodSearchPath + searchTerm
        == (baseAddress + LookupTypesPrefix) + SearchMarker + (rest + searchTerm);
    SearchAnywhereExempts(baseAddress + LookupTypesPrefix, rest + searchTerm);
  }

  /** The expense-type search URI is exempt for every base address and every search term. */
  lemma ExpenseTypeSearchExempt(baseAddress: string, searchTerm: string)
    ensures IsExempt(baseAddress + ExpenseTypeSearchPath + searchTerm)
  {
    var rest := "/expense-types?searchTerm=";
    assert baseAddress + ExpenseTypeSearchPath + searchTerm
        == (baseAddress + LookupTypesPrefix) + SearchMarker + (rest + searchTerm);
    SearchAnywhereExempts(baseAddress + LookupTypesPrefix, rest + searchTerm);
  }
}
