/**
 * pkg/middleware/logging.go: the status-capturing response writer, the client
 * address extraction and the choice of log level. The log entry itself, the
 * request id and the duration are left out.
 */
module Logging {

  /** responseWriter: remembers the status it forwards to the wrapped writer. */
  class StatusRecorder {
    var statusCode: int
    /** The codes passed on to the wrapped http.ResponseWriter, in order. */
    var forwarded: seq<int>

    /** The Logging middleware wraps with statusCode http.StatusOK. */
    constructor ()
      ensures statusCode == 200 && forwarded == []
    {
      statusCode := 200;
      forwarded := [];
    }

    method WriteHeader(code: int)
      modifies this
      ensures statusCode == code
      ensures forwarded == old(forwarded) + [code]
    {
      statusCode := code;
      forwarded := forwarded + [code];
    }
  }

  datatype Level = Info | Warn | Error

  /** 5xx is an error, 4xx a warning, everything else informational. */
  function LogLevel(status: int): (l: Level)
    ensures l == Error <==> status >= 500
    ensures l == Warn <==> 400 <= status < 500
    ensures l == Info <==> status < 400
  {
    if status >= 500 then Error
    else if status >= 400 then Warn
    else Info
  }

  function Severity(l: Level): nat {
    match l
    case Info => 0
    case Warn => 1
    case Error => 2
  }

  /** A higher status never logs at a lower level. */
  lemma LogLevelMonotone(a: int, b: int)
    requires a <= b
    ensures Severity(LogLevel(a)) <= Severity(LogLevel(b))
  {
  }

  /** `k` is the index of the first ',' in `s`. */
  ghost predicate FirstCommaAt(s: string, k: int) {
    0 <= k < |s| && s[k] == ',' && forall j :: 0 <= j < k ==> s[j] != ','
  }

  /**
   * getClientIP: the part of X-Forwarded-For before its first comma, unless that
   * comma opens the header or there is none (then the whole header); else
   * X-Real-IP when set; else the connection's remote address.
   */
  method ClientIP(xff: string, xri: string, remoteAddr: string) returns (ip: string)
    ensures xff != "" ==>
      (exists k :: FirstCommaAt(xff, k) && k > 0 && ip == xff[..k]) ||
      ((forall k :: FirstCommaAt(xff, k) ==> k == 0) && ip == xff)
    ensures xff == "" && xri != "" ==> ip == xri
    ensures xff == "" && xri == "" ==> ip == remoteAddr
  {
    if xff != "" {
      // `idx := len(xff)` exceeds 0 and `commaIdx := 0` is below it: both guards always hold.
      var commaIdx := 0;
      var i := 0;
      while i < |xff|
        invariant 0 <= i <= |xff|
        invariant forall j :: 0 <= j < i ==> xff[j] != ','
        invariant commaIdx == 0
      {
        if xff[i] == ',' {
          commaIdx := i;
          break;
        }
        i := i + 1;
      }
      assert i < |xff| ==> FirstCommaAt(xff, i) && commaIdx == i;
      assert i == |xff| ==> forall k :: !FirstCommaAt(xff, k);
      if commaIdx > 0 {
        return xff[..commaIdx];
      }
      return xff;
    }
    if xri != "" {
      return xri;
    }
    return remoteAddr;
  }
}
