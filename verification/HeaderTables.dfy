/** The known-header tables and the name/index lookups over them. */
module HeaderTables {
  import opened Text

  const REQUEST_HEADER_MAXIMUM := 40
  const RESPONSE_HEADER_MAXIMUM := 30

  const COMMON_NAMES: seq<string> := [
    "Cache-Control", "Connection", "Date", "Keep-Alive",
    "Pragma", "Trailer", "Transfer-Encoding", "Upgrade",
    "Via", "Warning", "Allow", "Content-Length",
    "Content-Type", "Content-Encoding", "Content-Language", "Content-Location",
    "Content-MD5", "Content-Range", "Expires", "Last-Modified"]

  const REQUEST_ONLY_NAMES: seq<string> := [
    "Accept", "Accept-Charset", "Accept-Encoding", "Accept-Language",
    "Authorization", "Cookie", "Expect", "From",
    "Host", "If-Match", "If-Modified-Since", "If-None-Match",
    "If-Range", "If-Unmodified-Since", "Max-Forwards", "Proxy-Authorization",
    "Referer", "Range", "TE", "User-Agent"]

  const RESPONSE_ONLY_NAMES: seq<string> := [
    "Accept-Ranges", "Age", "ETag", "Location",
    "Proxy-Authenticate", "Retry-After", "Server", "Set-Cookie",
    "Vary", "WWW-Authenticate"]

  const COMMON_INDEX: seq<string> := [
    "cache-control", "connection", "date", "keep-alive",
    "pragma", "trailer", "transfer-encoding", "upgrade",
    "via", "warning", "allow", "content-length",
    "content-type", "content-encoding", "content-language", "content-location",
    "content-md5", "content-range", "expires", "last-modified"]

  const REQUEST_ONLY_INDEX: seq<string> := [
    "accept", "accept-charset", "accept-encoding", "accept-language",
    "authorization", "cookie", "expect", "from",
    "host", "if-match", "if-modified-since", "if-none-match",
    "if-range", "if-unmodified-since", "max-forwards", "proxy-authorization",
    "referer", "range", "te", "user-agent"]

  const RESPONSE_ONLY_INDEX: seq<string> := [
    "accept-ranges", "age", "etag", "location",
    "proxy-authenticate", "retry-after", "server", "set-cookie",
    "vary", "www-authenticate"]

  const REQUEST_NAMES := COMMON_NAMES + REQUEST_ONLY_NAMES
  const REQUEST_INDEX := COMMON_INDEX + REQUEST_ONLY_INDEX
  const RESPONSE_NAMES := COMMON_NAMES + RESPONSE_ONLY_NAMES
  const RESPONSE_INDEX := COMMON_INDEX + RESPONSE_ONLY_INDEX

  function KnownRequestHeaderIndex(header: string): int {
    IndexOf(REQUEST_INDEX, Lower(header))
  }

  function KnownRequestHeaderName(i: int): Option<string> {
    if 0 <= i < REQUEST_HEADER_MAXIMUM then Some(REQUEST_NAMES[i]) else None
  }

  function KnownResponseHeaderIndex(header: string): int {
    IndexOf(RESPONSE_INDEX, Lower(header))
  }

  function KnownResponseHeaderName(i: int): Option<string> {
    if 0 <= i < RESPONSE_HEADER_MAXIMUM then Some(RESPONSE_NAMES[i]) else None
  }

  ghost predicate LowersTo(names: seq<string>, index: seq<string>) {
    |names| == |index| && forall i :: 0 <= i < |names| ==> Lower(names[i]) == index[i]
  }

  ghost predicate Distinct(xs: seq<string>) {
    forall i, j :: 0 <= i < j < |xs| ==> xs[i] != xs[j]
  }

  /** Lower-case names, as the lookups compare them. */
  ghost predicate Folded(index: seq<string>) {
    forall i :: 0 <= i < |index| ==> Lower(index[i]) == index[i]
  }

  lemma LoweredIsFolded(names: seq<string>, index: seq<string>)
    requires LowersTo(names, index)
    ensures Folded(index)
  {
    forall i | 0 <= i < |index| ensures Lower(index[i]) == index[i] {
      LowerForm(names[i]);
    }
  }

  // The two tables agree up to case.  Evaluating `Lower` on literals is the whole
  // cost, so each lemma covers a few rows.

  lemma CommonLowers0()
    ensures forall i :: 0 <= i < 4 ==> Lower(COMMON_NAMES[i]) == COMMON_INDEX[i]
  {
  }

  lemma CommonLowers4()
    ensures forall i :: 4 <= i < 8 ==> Lower(COMMON_NAMES[i]) == COMMON_INDEX[i]
  {
  }

  lemma CommonLowers8()
    ensures forall i :: 8 <= i < 12 ==> Lower(COMMON_NAMES[i]) == COMMON_INDEX[i]
  {
  }

  lemma CommonLowers12()
    ensures forall i :: 12 <= i < 16 ==> Lower(COMMON_NAMES[i]) == COMMON_INDEX[i]
  {
  }

  lemma CommonLowers16()
    ensures forall i :: 16 <= i < 20 ==> Lower(COMMON_NAMES[i]) == COMMON_INDEX[i]
  {
  }

  lemma RequestOnlyLowers0()
    ensures forall i :: 0 <= i < 4 ==> Lower(REQUEST_ONLY_NAMES[i]) == REQUEST_ONLY_INDEX[i]
  {
  }

  lemma RequestOnlyLowers4()
    ensures forall i :: 4 <= i < 8 ==> Lower(REQUEST_ONLY_NAMES[i]) == REQUEST_ONLY_INDEX[i]
  {
  }

  lemma RequestOnlyLowers8()
    ensures forall i :: 8 <= i < 12 ==> Lower(REQUEST_ONLY_NAMES[i]) == REQUEST_ONLY_INDEX[i]
  {
  }

  lemma RequestOnlyLowers12()
    ensures forall i :: 12 <= i < 14 ==> Lower(REQUEST_ONLY_NAMES[i]) == REQUEST_ONLY_INDEX[i]
  {
  }

  lemma RequestOnlyLowers14()
    ensures forall i :: 14 <= i < 16 ==> Lower(REQUEST_ONLY_NAMES[i]) == REQUEST_ONLY_INDEX[i]
  {
  }

  lemma RequestOnlyLowers16()
    ensures forall i :: 16 <= i < 20 ==> Lower(REQUEST_ONLY_NAMES[i]) == REQUEST_ONLY_INDEX[i]
  {
  }

  lemma ResponseOnlyLowers0()
    ensures forall i :: 0 <= i < 4 ==> Lower(RESPONSE_ONLY_NAMES[i]) == RESPONSE_ONLY_INDEX[i]
  {
  }

  lemma ResponseOnlyLowers4()
    ensures forall i :: 4 <= i < 8 ==> Lower(RESPONSE_ONLY_NAMES[i]) == RESPONSE_ONLY_INDEX[i]
  {
  }

  lemma ResponseOnlyLowers8()
    ensures forall i :: 8 <= i < 10 ==> Lower(RESPONSE_ONLY_NAMES[i]) == RESPONSE_ONLY_INDEX[i]
  {
  }

  lemma RequestNamesLowerToIndex()
    ensures LowersTo(REQUEST_NAMES, REQUEST_INDEX)
  {
    CommonLowers0(); CommonLowers4(); CommonLowers8(); CommonLowers12(); CommonLowers16();
    RequestOnlyLowers0(); RequestOnlyLowers4(); RequestOnlyLowers8(); RequestOnlyLowers12(); RequestOnlyLowers14(); RequestOnlyLowers16();
  }

  lemma ResponseNamesLowerToIndex()
    ensures LowersTo(RESPONSE_NAMES, RESPONSE_INDEX)
  {
    CommonLowers0(); CommonLowers4(); CommonLowers8(); CommonLowers12(); CommonLowers16();
    ResponseOnlyLowers0(); ResponseOnlyLowers4(); ResponseOnlyLowers8();
  }

  lemma CommonDistinctLow()
    ensures forall i, j :: 0 <= i < j < 10 ==> COMMON_INDEX[i] != COMMON_INDEX[j]
  {
  }

  lemma CommonDistinctHigh()
    ensures forall i, j :: 10 <= i < j < 20 ==> COMMON_INDEX[i] != COMMON_INDEX[j]
  {
  }

  lemma CommonDistinctAcross()
    ensures forall i, j :: 0 <= i < 10 <= j < 20 ==> COMMON_INDEX[i] != COMMON_INDEX[j]
  {
  }

  lemma CommonDistinct()
    ensures Distinct(COMMON_INDEX)
  {
    CommonDistinctLow();
    CommonDistinctHigh();
    CommonDistinctAcross();
  }

  lemma RequestOnlyDistinctLow()
    ensures forall i, j :: 0 <= i < j < 10 ==> REQUEST_ONLY_INDEX[i] != REQUEST_ONLY_INDEX[j]
  {
  }

  lemma RequestOnlyDistinctHigh()
    ensures forall i, j :: 10 <= i < j < 20 ==> REQUEST_ONLY_INDEX[i] != REQUEST_ONLY_INDEX[j]
  {
  }

  lemma RequestOnlyDistinctAcross()
    ensures forall i, j :: 0 <= i < 10 <= j < 20 ==> REQUEST_ONLY_INDEX[i] != REQUEST_ONLY_INDEX[j]
  {
  }

  lemma CommonApartFromRequestOnly()
    ensures forall i, j :: 0 <= i < 20 && 0 <= j < 20 ==> COMMON_INDEX[i] != REQUEST_ONLY_INDEX[j]
  {
  }

  lemma RequestOnlyDistinct()
    ensures Distinct(REQUEST_ONLY_INDEX)
  {
    RequestOnlyDistinctLow();
    RequestOnlyDistinctHigh();
    RequestOnlyDistinctAcross();
  }

  lemma RequestIndexDistinct()
    ensures Distinct(REQUEST_INDEX)
  {
    CommonDistinct();
    RequestOnlyDistinct();
    CommonApartFromRequestOnly();
    ConcatDistinct(COMMON_INDEX, REQUEST_ONLY_INDEX);
  }

  lemma ResponseOnlyDistinct()
    ensures Distinct(RESPONSE_ONLY_INDEX)
  {
  }

  lemma CommonApartFromResponseOnly()
    ensures forall i, j :: 0 <= i < 20 && 0 <= j < 10 ==> COMMON_INDEX[i] != RESPONSE_ONLY_INDEX[j]
  {
  }

  lemma ResponseIndexDistinct()
    ensures Distinct(RESPONSE_INDEX)
  {
    CommonDistinct();
    ResponseOnlyDistinct();
    CommonApartFromResponseOnly();
    ConcatDistinct(COMMON_INDEX, RESPONSE_ONLY_INDEX);
  }

  lemma ConcatDistinct(a: seq<string>, b: seq<string>)
    requires Distinct(a) && Distinct(b)
    requires forall i, j :: 0 <= i < |a| && 0 <= j < |b| ==> a[i] != b[j]
    ensures Distinct(a + b)
  {
    var c := a + b;
    forall i, j | 0 <= i < j < |c| ensures c[i] != c[j] {
      if i < |a| <= j {
        assert a[i] != b[j - |a|];
      }
    }
  }

  // ----- the lookups are inverse up to case -----

  /** A lookup in a table of distinct lower-case names decides case-insensitive equality with the names. */
  lemma LookupDecidesName(names: seq<string>, index: seq<string>, s: string, i: int)
    requires LowersTo(names, index) && Distinct(index)
    ensures IndexOf(index, Lower(s)) == i && 0 <= i <==> 0 <= i < |names| && SameIgnoringCase(s, names[i])
  {
    if 0 <= i < |names| {
      LowerDecidesCase(s, names[i]);
      assert Lower(names[i]) == index[i];
    }
  }

  lemma RequestIndexDecidesName(s: string, i: int)
    ensures KnownRequestHeaderIndex(s) == i && 0 <= i <==>
            0 <= i < REQUEST_HEADER_MAXIMUM && SameIgnoringCase(s, REQUEST_NAMES[i])
    ensures 0 <= i < REQUEST_HEADER_MAXIMUM ==> KnownRequestHeaderIndex(REQUEST_NAMES[i]) == i
    ensures var name := KnownRequestHeaderName(KnownRequestHeaderIndex(s));
            && (name.Some? <==> exists j :: 0 <= j < REQUEST_HEADER_MAXIMUM && SameIgnoringCase(s, REQUEST_NAMES[j]))
            && (name.Some? ==> SameIgnoringCase(name.value, s))
    ensures match KnownRequestHeaderName(i)
            case Some(name) => 0 <= i < 40 && KnownRequestHeaderIndex(name) == i
            case None => !(0 <= i < 40)
  {
    RequestNamesLowerToIndex();
    RequestIndexDistinct();
    assert |REQUEST_NAMES| == |REQUEST_INDEX| == REQUEST_HEADER_MAXIMUM;
    LookupDecidesName(REQUEST_NAMES, REQUEST_INDEX, s, i);
    if 0 <= i < REQUEST_HEADER_MAXIMUM {
      LookupDecidesName(REQUEST_NAMES, REQUEST_INDEX, REQUEST_NAMES[i], i);
    }
    forall j | 0 <= j < REQUEST_HEADER_MAXIMUM
      ensures KnownRequestHeaderIndex(s) == j <==> SameIgnoringCase(s, REQUEST_NAMES[j])
    {
      LookupDecidesName(REQUEST_NAMES, REQUEST_INDEX, s, j);
    }
  }

  lemma ResponseIndexDecidesName(s: string, i: int)
    ensures KnownResponseHeaderIndex(s) == i && 0 <= i <==>
            0 <= i < RESPONSE_HEADER_MAXIMUM && SameIgnoringCase(s, RESPONSE_NAMES[i])
    ensures 0 <= i < RESPONSE_HEADER_MAXIMUM ==> KnownResponseHeaderIndex(RESPONSE_NAMES[i]) == i
    ensures var name := KnownResponseHeaderName(KnownResponseHeaderIndex(s));
            && (name.Some? <==> exists j :: 0 <= j < RESPONSE_HEADER_MAXIMUM && SameIgnoringCase(s, RESPONSE_NAMES[j]))
            && (name.Some? ==> SameIgnoringCase(name.value, s))
    ensures match KnownResponseHeaderName(i)
            case Some(name) => 0 <= i < 30 && KnownResponseHeaderIndex(name) == i
            case None => !(0 <= i < 30)
  {
    ResponseNamesLowerToIndex();
    ResponseIndexDistinct();
    assert |RESPONSE_NAMES| == |RESPONSE_INDEX| == RESPONSE_HEADER_MAXIMUM;
    LookupDecidesName(RESPONSE_NAMES, RESPONSE_INDEX, s, i);
    if 0 <= i < RESPONSE_HEADER_MAXIMUM {
      LookupDecidesName(RESPONSE_NAMES, RESPONSE_INDEX, RESPONSE_NAMES[i], i);
    }
    forall j | 0 <= j < RESPONSE_HEADER_MAXIMUM
      ensures KnownResponseHeaderIndex(s) == j <==> SameIgnoringCase(s, RESPONSE_NAMES[j])
    {
      LookupDecidesName(RESPONSE_NAMES, RESPONSE_INDEX, s, j);
    }
  }
}
