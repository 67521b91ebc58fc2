/**
 The PHP values the routing panel handles: optional values, request
 parameters, caught exceptions, and the two string operations the panel
 applies to module names (truthiness and trimming trailing colons).
 */
module Values {

  /** A present value or nothing (PHP `null`). */
  datatype Option<+T> = None | Some(value: T)

  /** A router parameter value: PHP `null`, or a scalar whose `text` is the
      string PHP's `.` operator makes of it. */
  datatype Value = Null | Scalar(text: string)

  /** The parameter array a router's match returns. */
  type Params = map<string, Value>

  /** An exception: its class and message. */
  datatype Failure = Failure(className: string, message: string)

  /** `isset($params[key])`: the key is present and not null. */
  predicate IsSet(params: Params, key: string) {
    key in params && params[key].Scalar?
  }

  /** `$params[key] ?? ''` used as a string. */
  function TextOr(params: Params, key: string): string
  {
    if IsSet(params, key) then params[key].text else ""
  }

  /** PHP's boolean reading of a string: only "" and "0" are false. */
  predicate Truthy(s: string) {
    s != "" && s != "0"
  }

  /** `rtrim(s, ':')`: the longest prefix of `s` that does not end in ':'. */
  function RTrimColons(s: string): (r: string)
    ensures r <= s
    ensures |r| == 0 || r[|r| - 1] != ':'
    ensures forall i :: |r| <= i < |s| ==> s[i] == ':'
  {
    if |s| > 0 && s[|s| - 1] == ':' then RTrimColons(s[..|s| - 1]) else s
  }
}
