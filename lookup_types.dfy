/** The lookup-type controller's route-segment parser and the list action that
    uses it: the segment names one of the two lookup-type categories, or the
    request fails with an ArgumentException before the service is called.
 */
module LookupTypes {
  import opened Wrappers

  datatype LookupTypeCategory = ExpenseType | PaymentMethod

  /** A value, or the message of the exception that replaced it. */
  datatype Result<T> = Ok(value: T) | Err(message: string)

  const ExpenseTypesSegment: string := "expense-types"
  const PaymentMethodsSegment: string := "payment-methods"
  const InvalidCategoryMessage: string := "Invalid lookup type category specified!"

  const DefaultPage: int := 1
  const DefaultPageSize: int := 10

  /** The route segment that names each category: the inverse of the parser. */
  function CategorySegment(category: LookupTypeCategory): (segment: string)
    ensures segment == ExpenseTypesSegment || segment == PaymentMethodsSegment
  {
    match category
    case ExpenseType => ExpenseTypesSegment
    case PaymentMethod => PaymentMethodsSegment
  }

  /** The switch on the route segment: exact, case-sensitive matches only. */
  function GetLookupTypeCategoryFromString(lookupTypeCategory: string): (r: Result<LookupTypeCategory>)
    ensures r.Ok? <==> lookupTypeCategory == ExpenseTypesSegment || lookupTypeCategory == PaymentMethodsSegment
    ensures r == Ok(ExpenseType) <==> lookupTypeCategory == ExpenseTypesSegment
    ensures r == Ok(PaymentMethod) <==> lookupTypeCategory == PaymentMethodsSegment
    ensures r.Err? ==> r.message == InvalidCategoryMessage
  {
    if lookupTypeCategory == ExpenseTypesSegment then Ok(ExpenseType)
    else if lookupTypeCategory == PaymentMethodsSegment then Ok(PaymentMethod)
    else Err(InvalidCategoryMessage)
  }

  /** Parsing a category's own segment gives that category back. */
  lemma ParseSegmentRoundTrip(category: LookupTypeCategory)
    ensures GetLookupTypeCategoryFromString(CategorySegment(category)) == Ok(category)
  {
    match category
    case ExpenseType =>
    case PaymentMethod =>
  }

  /** Every accepted segment is the segment of the category it yields. */
  lemma AcceptedSegmentRoundTrip(segment: string)
    requires GetLookupTypeCategoryFromString(segment).Ok?
    ensures CategorySegment(GetLookupTypeCategoryFromString(segment).value) == segment
  {
  }

  /** The mapping is injective: two segments that parse to the same category are equal. */
  lemma ParseInjective(a: string, b: string)
    requires GetLookupTypeCategoryFromString(a).Ok?
    requires GetLookupTypeCategoryFromString(a) == GetLookupTypeCategoryFromString(b)
    ensures a == b
  {
    AcceptedSegmentRoundTrip(a);
    AcceptedSegmentRoundTrip(b);
  }

  /** Case variants, the empty segment and the singular forms are rejected. */
  lemma RejectsNearMisses()
    ensures GetLookupTypeCategoryFromString("").Err?
    ensures GetLookupTypeCategoryFromString("Expense-Types").Err?
    ensures GetLookupTypeCategoryFromString("PAYMENT-METHODS").Err?
    ensures GetLookupTypeCategoryFromString("expense-type").Err?
    ensures GetLookupTypeCategoryFromString("payment-method").Err?
  {
    assert "Expense-Types"[0] != ExpenseTypesSegment[0];
    assert "PAYMENT-METHODS"[0] != PaymentMethodsSegment[0];
    assert |"expense-type"| != |ExpenseTypesSegment|;
    assert |"payment-method"| != |PaymentMethodsSegment|;
  }

  /** The call the list action forwards to the lookup-type service. */
  datatype GetAllLookupTypes = GetAllLookupTypes(
    category: LookupTypeCategory, page: int, pageSize: int, searchText: Option<string>)

  /** The list action: `page`, `pageSize` and `searchText` are None when the
      query string leaves them out. An invalid segment fails before any call to
      the service; otherwise the service is called with the parsed category and
      the query values, defaulted and otherwise unchanged. */
  function GetSpecifiedLookupTypes(lookupTypeCategory: string, page: Option<int>, pageSize: Option<int>, searchText: Option<string>)
    : (r: Result<GetAllLookupTypes>)
    ensures r.Err? <==> GetLookupTypeCategoryFromString(lookupTypeCategory).Err?
    ensures r.Err? ==> r.message == InvalidCategoryMessage
    ensures r.Ok? ==> CategorySegment(r.value.category) == lookupTypeCategory
    ensures r.Ok? ==> r.value.page == (if page.Some? then page.value else DefaultPage)
    ensures r.Ok? ==> r.value.pageSize == (if pageSize.Some? then pageSize.value else DefaultPageSize)
    ensures r.Ok? ==> r.value.searchText == searchText
  {
    match GetLookupTypeCategoryFromString(lookupTypeCategory)
    case Err(message) => Err(message)
    case Ok(category) =>
      Ok(GetAllLookupTypes(
        category,
        match page case Some(p) => p case None => DefaultPage,
        match pageSize case Some(n) => n case None => DefaultPageSize,
        searchText))
  }

  /** A request that gives only the category is forwarded with page 1, page size 10 and no search text. */
  lemma DefaultsApply(category: LookupTypeCategory)
    ensures GetSpecifiedLookupTypes(CategorySegment(category), None, None, None)
         == Ok(GetAllLookupTypes(category, 1, 10, None))
  {
    ParseSegmentRoundTrip(category);
  }
}
