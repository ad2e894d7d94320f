/** `SubscribersController.GetClientIpAddress`: the address recorded with a
    subscription. Instead of reads of the HTTP context it takes two
    parameters: `forwardedFor`, which is
    `Headers["X-Forwarded-For"].FirstOrDefault()` (the first value when the
    header is sent more than once, null when it is absent), and the
    connection's remote address. */
module ClientIp {
  import opened Wrappers
  import Text

  /** `header.Split(',')[0]`: everything before the first comma, or all of
      `header` when it has none. */
  function FirstSegment(header: string): (r: string)
    ensures |r| <= |header| && r == header[..|r|]
    ensures ',' !in r
    ensures |r| == |header| || header[|r|] == ','
  {
    if |header| == 0 || header[0] == ',' then []
    else [header[0]] + FirstSegment(header[1..])
  }

  /** The segment before a comma is exactly the text before that comma. */
  lemma FirstSegmentOfList(first: string, rest: string)
    requires ',' !in first
    ensures FirstSegment(first + "," + rest) == first
  {
    var h := first + "," + rest;
    var r := FirstSegment(h);
    assert h[|first|] == ',';
    assert |r| == |first|;
    assert r == h[..|first|] == first;
  }

  lemma CommaFreeTrim(s: string)
    requires ',' !in s
    ensures ',' !in Text.Trim(s)
  {
    var p, q := Text.TrimSplit(s);
  }

  /** A non-empty forwarded header wins and yields its first hop, trimmed;
      otherwise the remote address is returned as it is, which may be null. */
  function GetClientIpAddress(forwardedFor: Option<string>, remoteAddress: Option<string>): (r: Option<string>)
    ensures Text.IsNullOrEmpty(forwardedFor) ==> r == remoteAddress
    ensures !Text.IsNullOrEmpty(forwardedFor) ==>
              && r.Some?
              && ',' !in r.value
              && Text.IsTrimmed(r.value)
              && (',' !in forwardedFor.value ==> r.value == Text.Trim(forwardedFor.value))
  {
    if !Text.IsNullOrEmpty(forwardedFor) then
      var first := FirstSegment(forwardedFor.value);
      CommaFreeTrim(first);
      assert ',' !in forwardedFor.value ==> first == forwardedFor.value;
      Some(Text.Trim(first))
    else
      remoteAddress
  }

  /** Only the first hop of a forwarded chain matters: later proxies cannot
      change the recorded address. */
  lemma ClientIpIsFirstHop(first: string, rest: string, remoteAddress: Option<string>)
    requires ',' !in first
    ensures GetClientIpAddress(Some(first + "," + rest), remoteAddress) == Some(Text.Trim(first))
  {
    FirstSegmentOfList(first, rest);
  }
}
