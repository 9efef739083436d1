/**
 * Query-parameter readers of pkg/common.go. The parameter's raw text is an
 * input; gin's `c.Query(key)` yields "" for an absent parameter.
 */
module Common {
  import opened Wrappers
  import opened ResponseCode
  import Decimal

  /** The page cursors echoed in list responses. */
  datatype Pagination = Pagination(currentCursor: string, nextCursor: string)

  /**
   * `GetIntQueryParams`: the default for an absent parameter or a value that
   * is not positive, BadRequest for text `strconv.Atoi` refuses, its message
   * carrying the error `strconv.Atoi` returns.
   */
  function GetIntQueryParams(query: string, defValue: int, key: string): (r: Result<int, Failure>)
    ensures query == "" ==> r == Ok(defValue)
    ensures query != "" ==> (r.Err? <==> Decimal.Atoi(query).None?)
    ensures r.Err? ==> r.error.code == BadRequest && r.error.message == key + " should be integer, got error: " + Decimal.AtoiError(query)
    ensures r.Ok? ==> r.value == defValue || (r.value > 0 && Decimal.Atoi(query) == Some(r.value))
    ensures query != "" && Decimal.Atoi(query).Some? && Decimal.Atoi(query).value > 0 ==> r == Ok(Decimal.Atoi(query).value)
    ensures r.Ok? && defValue > 0 ==> r.value > 0
  {
    if query == "" then Ok(defValue)
    else
      match Decimal.Atoi(query)
      case None => Err(Failure(BadRequest, key + " should be integer, got error: " + Decimal.AtoiError(query)))
      case Some(v) => if v > 0 then Ok(v) else Ok(defValue)
  }

  /** Any int64 a client writes in decimal is read back as itself when positive. */
  lemma IntQueryOfItoa(n: int, defValue: int, key: string)
    requires 0 < n <= Decimal.MaxInt64
    ensures GetIntQueryParams(Decimal.Itoa(n), defValue, key) == Ok(n)
  {
    Decimal.AtoiItoa(n);
  }

  /** `GetBoolQueryParams`: false when absent, BadRequest when unparsable. */
  function GetBoolQueryParams(query: string, key: string): (r: Result<bool, Failure>)
    ensures query == "" ==> r == Ok(false)
    ensures query != "" ==> (r.Err? <==> Decimal.ParseBool(query).None?)
    ensures r.Err? ==> r.error.code == BadRequest && r.error.message == key + " should be boolean, got error: " + Decimal.ParseBoolError(query)
    ensures query != "" && r.Ok? ==> Decimal.ParseBool(query) == Some(r.value)
  {
    if query == "" then Ok(false)
    else
      match Decimal.ParseBool(query)
      case None => Err(Failure(BadRequest, key + " should be boolean, got error: " + Decimal.ParseBoolError(query)))
      case Some(b) => Ok(b)
  }
}
