/**
 * How the relay names the client it rate-limits: a prioritised choice
 * over three optional request headers.
 */
module ClientKey {
  import opened Text

  /** The request headers the choice looks at; `None` when absent. */
  datatype Headers = Headers(
    forwardedFor: Option<string>,    // x-forwarded-for
    realIp: Option<string>,          // x-real-ip
    cfConnectingIp: Option<string>)  // cf-connecting-ip

  /** The key used when no header names the client. */
  const UnknownClient: string := "unknown"

  /** The first element of a comma-separated `x-forwarded-for` list, trimmed. */
  function ForwardedClient(forwarded: string): string
  {
    Trim(FirstField(forwarded, ','))
  }

  /** The client key: the first non-empty header among x-forwarded-for
      (its first element, trimmed), x-real-ip and cf-connecting-ip, in that
      order; otherwise "unknown". */
  function ClientIP(h: Headers): string
  {
    if Truthy(h.forwardedFor) then ForwardedClient(h.forwardedFor.value)
    else if Truthy(h.realIp) then h.realIp.value
    else if Truthy(h.cfConnectingIp) then h.cfConnectingIp.value
    else UnknownClient
  }

  /** What the key taken from x-forwarded-for is: the piece `forwarded[i..j]`
      of the header, lying before its first comma, with no comma in it and
      no whitespace at either end, and with only whitespace between it and
      the start of the header or the first comma. */
  lemma ForwardedClientIsFirstElement(forwarded: string) returns (i: int, j: int)
    ensures 0 <= i <= j <= |forwarded| && ForwardedClient(forwarded) == forwarded[i..j]
    ensures ',' !in forwarded[..j]
    ensures forall k :: 0 <= k < i ==> IsWhitespace(forwarded[k])
    ensures forall k :: j <= k < |forwarded| && ',' !in forwarded[..k + 1] ==> IsWhitespace(forwarded[k])
    ensures var r := ForwardedClient(forwarded);
      r == [] || (!IsWhitespace(r[0]) && !IsWhitespace(r[|r| - 1]))
  {
    var f := FirstField(forwarded, ',');
    i, j := TrimIsInnerSlice(f);
    assert forwarded[..j] == f[..j];
  }

  /** The choice, header by header: each source is used exactly when every
      source before it is absent or empty and it is present and non-empty,
      and "unknown" exactly when all three are absent or empty. */
  lemma ClientIPPriority(h: Headers)
    ensures Truthy(h.forwardedFor) ==> ClientIP(h) == ForwardedClient(h.forwardedFor.value)
    ensures !Truthy(h.forwardedFor) && Truthy(h.realIp) ==> ClientIP(h) == h.realIp.value
    ensures !Truthy(h.forwardedFor) && !Truthy(h.realIp) && Truthy(h.cfConnectingIp)
      ==> ClientIP(h) == h.cfConnectingIp.value
    ensures !Truthy(h.forwardedFor) && !Truthy(h.realIp) && !Truthy(h.cfConnectingIp)
      ==> ClientIP(h) == UnknownClient
  {
  }

  /** A header given as the empty string counts as absent. */
  lemma EmptyHeaderIsAbsent(h: Headers)
    ensures ClientIP(h.(forwardedFor := Some(""))) == ClientIP(h.(forwardedFor := None))
    ensures ClientIP(h.(realIp := Some(""))) == ClientIP(h.(realIp := None))
    ensures ClientIP(h.(cfConnectingIp := Some(""))) == ClientIP(h.(cfConnectingIp := None))
  {
  }
}
