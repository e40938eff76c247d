/** The constructor's partition of the request headers into known slots and an
    ordered list of unknown headers, compared with the plain header list. */
module Headers {
  import opened Text
  import opened HeaderTables

  datatype Header = Header(key: string, val: string)

  predicate Matches(h: Header, name: string) {
    SameIgnoringCase(h.key, name)
  }

  // ----- reference lookups on the plain list -----

  /** Value of the last header named `name`, ignoring case. */
  function LastValue(headers: seq<Header>, name: string): Option<string> {
    if headers == [] then None
    else
      var n := |headers| - 1;
      if Matches(headers[n], name) then Some(headers[n].val) else LastValue(headers[..n], name)
  }

  /** Value of the first header named `name`, ignoring case. */
  function FirstValue(headers: seq<Header>, name: string): Option<string> {
    if headers == [] then None
    else if Matches(headers[0], name) then Some(headers[0].val)
    else FirstValue(headers[1..], name)
  }

  ghost predicate LastAt(headers: seq<Header>, name: string, i: int) {
    && 0 <= i < |headers|
    && Matches(headers[i], name)
    && forall j :: i < j < |headers| ==> !Matches(headers[j], name)
  }

  ghost predicate FirstAt(headers: seq<Header>, name: string, i: int) {
    && 0 <= i < |headers|
    && Matches(headers[i], name)
    && forall j :: 0 <= j < i ==> !Matches(headers[j], name)
  }

  lemma {:induction false} LastValueMeaning(headers: seq<Header>, name: string) returns (i: int)
    ensures i == -1 ==> LastValue(headers, name) == None && forall h <- headers :: !Matches(h, name)
    ensures i != -1 ==> LastAt(headers, name, i) && LastValue(headers, name) == Some(headers[i].val)
  {
    if headers == [] {
      i := -1;
    } else if Matches(headers[|headers| - 1], name) {
      i := |headers| - 1;
    } else {
      i := LastValueMeaning(headers[..|headers| - 1], name);
    }
  }

  lemma {:induction false} FirstValueMeaning(headers: seq<Header>, name: string) returns (i: int)
    ensures i == -1 ==> FirstValue(headers, name) == None && forall h <- headers :: !Matches(h, name)
    ensures i != -1 ==> FirstAt(headers, name, i) && FirstValue(headers, name) == Some(headers[i].val)
  {
    if headers == [] {
      i := -1;
    } else if Matches(headers[0], name) {
      i := 0;
    } else {
      i := FirstValueMeaning(headers[1..], name);
      assert forall j :: 0 < j < |headers| ==> headers[j] == headers[1..][j - 1];
      i := if i == -1 then -1 else i + 1;
    }
  }

  /** Headers whose lowercased name is (`known`) or is not (`!known`) in the table, in list order. */
  function Side(index: seq<string>, headers: seq<Header>, known: bool): seq<Header> {
    if headers == [] then []
    else
      var n := |headers| - 1;
      Side(index, headers[..n], known) +
      (if (Lower(headers[n].key) in index) == known then [headers[n]] else [])
  }

  function Keys(headers: seq<Header>): (r: seq<string>)
    ensures |r| == |headers| && forall i :: 0 <= i < |r| ==> r[i] == headers[i].key
  {
    seq(|headers|, i requires 0 <= i < |headers| => headers[i].key)
  }

  function LowerKeys(headers: seq<Header>): (r: seq<string>)
    ensures |r| == |headers| && forall i :: 0 <= i < |r| ==> r[i] == Lower(headers[i].key)
  {
    seq(|headers|, i requires 0 <= i < |headers| => Lower(headers[i].key))
  }

  function Values(headers: seq<Header>): (r: seq<string>)
    ensures |r| == |headers| && forall i :: 0 <= i < |r| ==> r[i] == headers[i].val
  {
    seq(|headers|, i requires 0 <= i < |headers| => headers[i].val)
  }

  /** One more header: it joins the unknown side, or it becomes the last value of its name. */
  lemma UnknownNext(index: seq<string>, headers: seq<Header>, n: nat)
    requires n < |headers|
    ensures var h, before, after := headers[n], Side(index, headers[..n], false), Side(index, headers[..n + 1], false);
            if Lower(h.key) in index then after == before
            else
              && Keys(after) == Keys(before) + [h.key]
              && LowerKeys(after) == LowerKeys(before) + [Lower(h.key)]
              && Values(after) == Values(before) + [h.val]
  {
    assert headers[..n + 1][..n] == headers[..n] && headers[..n + 1][n] == headers[n];
  }

  lemma LastValueNext(headers: seq<Header>, n: nat, name: string)
    requires n < |headers|
    ensures LastValue(headers[..n + 1], name) ==
            if Matches(headers[n], name) then Some(headers[n].val) else LastValue(headers[..n], name)
  {
    assert headers[..n + 1][..n] == headers[..n] && headers[..n + 1][n] == headers[n];
  }

  // ----- the constructor's two loops -----

  /** First loop: one pass over the headers, filling a slot or appending to the three lists. */
  method PartitionHeaders(index: seq<string>, headers: seq<Header>)
    returns (known: array<Option<string>>, unkName: seq<string>, unkIndex: seq<string>, unkValue: seq<string>)
    requires Distinct(index) && Folded(index)
    ensures known.Length == |index|
    ensures forall i :: 0 <= i < |index| ==> known[i] == LastValue(headers, index[i])
    ensures unkName == Keys(Side(index, headers, false))
    ensures unkIndex == LowerKeys(Side(index, headers, false))
    ensures unkValue == Values(Side(index, headers, false))
  {
    known := new Option<string>[|index|](_ => None);
    unkName, unkIndex, unkValue := [], [], [];
    for n := 0 to |headers|
      invariant forall i :: 0 <= i < |index| ==> known[i] == LastValue(headers[..n], index[i])
      invariant unkName == Keys(Side(index, headers[..n], false))
      invariant unkIndex == LowerKeys(Side(index, headers[..n], false))
      invariant unkValue == Values(Side(index, headers[..n], false))
    {
      var key, val := headers[n].key, headers[n].val;
      var keyIndex := Lower(key);
      var ent := IndexOf(index, keyIndex);
      UnknownNext(index, headers, n);
      forall i | 0 <= i < |index|
        ensures LastValue(headers[..n + 1], index[i]) == if i == ent then Some(val) else LastValue(headers[..n], index[i])
      {
        LastValueNext(headers, n, index[i]);
        LowerDecidesCase(key, index[i]);
      }
      if ent >= 0 {
        known[ent] := Some(val);
      } else {
        unkName := unkName + [key];
        unkIndex := unkIndex + [keyIndex];
        unkValue := unkValue + [val];
      }
    }
    assert headers[..|headers|] == headers;
  }

  /** Second loop: the array of name/value pairs `GetUnknownRequestHeaders` returns. */
  method UnknownHeaderArray(index: seq<string>, headers: seq<Header>, unkName: seq<string>, unkValue: seq<string>)
    returns (arr: array<seq<string>>)
    requires unkName == Keys(Side(index, headers, false))
    requires unkValue == Values(Side(index, headers, false))
    ensures var unknown := Side(index, headers, false);
            arr.Length == |unknown| &&
            forall i :: 0 <= i < |unknown| ==> arr[i] == [unknown[i].key, unknown[i].val]
  {
    var elts := |unkValue|;
    arr := new seq<string>[elts](_ => []);
    for i := 0 to elts
      invariant forall j :: 0 <= j < i ==> arr[j] == [unkName[j], unkValue[j]]
    {
      arr[i] := [unkName[i], unkValue[i]];
    }
  }

  // ----- what the two lookups answer, in terms of the plain list -----

  function GetKnownRequestHeader(known: seq<Option<string>>, i: int): Option<string> {
    if 0 <= i < |known| then known[i] else None
  }

  function GetUnknownRequestHeader(unkIndex: seq<string>, unkValue: seq<string>, name: string): Option<string>
    requires |unkIndex| == |unkValue|
  {
    var ent := IndexOf(unkIndex, Lower(name));
    if ent >= 0 then Some(unkValue[ent]) else None
  }

  lemma {:induction false} FirstValueAppend(a: seq<Header>, h: Header, name: string)
    ensures FirstValue(a + [h], name) ==
            if FirstValue(a, name).Some? then FirstValue(a, name)
            else if Matches(h, name) then Some(h.val) else None
  {
    if a == [] {
      assert a + [h] == [h];
    } else {
      assert (a + [h])[1..] == a[1..] + [h];
      FirstValueAppend(a[1..], h, name);
    }
  }

  /** Restricted to unknown names, the unknown side answers as the whole list does. */
  lemma {:induction false} UnknownSideFirstValue(index: seq<string>, headers: seq<Header>, name: string)
    ensures FirstValue(Side(index, headers, false), name) ==
            if Lower(name) in index then None else FirstValue(headers, name)
  {
    if headers != [] {
      var n := |headers| - 1;
      var h := headers[n];
      LowerDecidesCase(h.key, name);
      UnknownSideFirstValue(index, headers[..n], name);
      assert headers == headers[..n] + [h];
      FirstValueAppend(headers[..n], h, name);
      FirstValueAppend(Side(index, headers[..n], false), h, name);
      if Lower(h.key) in index {
        assert Side(index, headers, false) == Side(index, headers[..n], false);
      }
    }
  }

  lemma {:induction false} FirstValueByIndexOf(headers: seq<Header>, name: string)
    ensures FirstValue(headers, name) ==
            var ent := IndexOf(LowerKeys(headers), Lower(name));
            if ent >= 0 then Some(Values(headers)[ent]) else None
  {
    if headers != [] {
      FirstValueByIndexOf(headers[1..], name);
      LowerDecidesCase(headers[0].key, name);
      assert LowerKeys(headers)[1..] == LowerKeys(headers[1..]);
      assert Values(headers)[1..] == Values(headers[1..]);
      assert LowerKeys(headers)[0] == Lower(headers[0].key);
    }
  }

  /** What a request built from `headers` answers for `name`, by its known slot and by the unknown lookup.  For
      every header list and every name: a known name reads the last matching header and is invisible to the unknown
      lookup, an unknown name reads the first one, and a name no header has reads nothing either way. */
  method LookUp(headers: seq<Header>, name: string) returns (slot: int, known: Option<string>, unknown: Option<string>)
    ensures slot == KnownRequestHeaderIndex(name)
    ensures slot >= 0 <==> exists j :: 0 <= j < REQUEST_HEADER_MAXIMUM && SameIgnoringCase(name, REQUEST_NAMES[j])
    ensures known == if slot >= 0 then LastValue(headers, name) else None
    ensures unknown == if slot >= 0 then None else FirstValue(headers, name)
  {
    slot := KnownRequestHeaderIndex(name);
    KnownSlot(headers, name, slot);
    var values, unkName, unkIndex, unkValue := PartitionHeaders(REQUEST_INDEX, headers);
    known := GetKnownRequestHeader(values[..], slot);
    unknown := GetUnknownRequestHeader(unkIndex, unkValue, name);
    UnknownLookupIsFirstMatch(REQUEST_INDEX, headers, name);
  }

  /** The unknown lookup finds the first match of the plain list, and nothing for a known name. */
  lemma UnknownLookupIsFirstMatch(index: seq<string>, headers: seq<Header>, name: string)
    ensures var unknown := Side(index, headers, false);
            GetUnknownRequestHeader(LowerKeys(unknown), Values(unknown), name) ==
            if Lower(name) in index then None else FirstValue(headers, name)
  {
    UnknownSideFirstValue(index, headers, name);
    FirstValueByIndexOf(Side(index, headers, false), name);
  }

  lemma {:induction false} LastValueIgnoresCase(headers: seq<Header>, name: string, other: string)
    requires Lower(name) == Lower(other)
    ensures LastValue(headers, name) == LastValue(headers, other)
  {
    if headers != [] {
      var n := |headers| - 1;
      LowerDecidesCase(headers[n].key, name);
      LowerDecidesCase(headers[n].key, other);
      LastValueIgnoresCase(headers[..n], name, other);
    }
  }

  /** The known lookup by name reads the slot of that name. */
  lemma KnownSlot(headers: seq<Header>, name: string, slot: int)
    requires slot == KnownRequestHeaderIndex(name)
    ensures Distinct(REQUEST_INDEX) && Folded(REQUEST_INDEX)
    ensures slot >= 0 <==> exists j :: 0 <= j < REQUEST_HEADER_MAXIMUM && SameIgnoringCase(name, REQUEST_NAMES[j])
    ensures slot >= 0 <==> Lower(name) in REQUEST_INDEX
    ensures slot < |REQUEST_INDEX| == REQUEST_HEADER_MAXIMUM
    ensures slot >= 0 ==> LastValue(headers, REQUEST_INDEX[slot]) == LastValue(headers, name)
  {
    RequestIndexDistinct();
    RequestNamesLowerToIndex();
    LoweredIsFolded(REQUEST_NAMES, REQUEST_INDEX);
    RequestIndexDecidesName(name, slot);
    if slot >= 0 {
      LastValueIgnoresCase(headers, REQUEST_INDEX[slot], name);
    }
  }

  /** The last header extends the side it belongs to and leaves the other alone. */
  lemma SidePair(index: seq<string>, headers: seq<Header>, known: bool)
    requires headers != []
    requires known == (Lower(headers[|headers| - 1].key) in index)
    ensures Side(index, headers, known) == Side(index, headers[..|headers| - 1], known) + [headers[|headers| - 1]]
    ensures Side(index, headers, !known) == Side(index, headers[..|headers| - 1], !known)
  {
  }

  /** Two lists hold the headers of a third between them. */
  ghost predicate Partition(a: seq<Header>, b: seq<Header>, all: seq<Header>) {
    multiset(a) + multiset(b) == multiset(all) && |a| + |b| == |all|
  }

  lemma PartitionGrows(a: seq<Header>, b: seq<Header>, all: seq<Header>, h: Header)
    requires Partition(a, b, all)
    ensures Partition(a + [h], b, all + [h]) && Partition(a, b + [h], all + [h])
  {
  }

  /** Every header lands on exactly one side: the two sides together are the list, header for header. */
  lemma {:induction false} SidesPartition(index: seq<string>, headers: seq<Header>)
    ensures Partition(Side(index, headers, true), Side(index, headers, false), headers)
  {
    if headers != [] {
      var rest, h := headers[..|headers| - 1], headers[|headers| - 1];
      SidesPartition(index, rest);
      PartitionGrows(Side(index, rest, true), Side(index, rest, false), rest, h);
      SidePair(index, headers, Lower(h.key) in index);
      assert headers == rest + [h];
    }
  }

  /** The unknown side keeps list order and original casing: it is the list read at increasing positions. */
  lemma {:induction false} UnknownSideKeepsOrder(index: seq<string>, headers: seq<Header>) returns (at: seq<nat>)
    ensures |at| == |Side(index, headers, false)|
    ensures forall i :: 0 <= i < |at| ==> at[i] < |headers| && headers[at[i]] == Side(index, headers, false)[i]
    ensures forall i, j :: 0 <= i < j < |at| ==> at[i] < at[j]
    ensures forall p :: 0 <= p < |headers| ==> (p in at <==> Lower(headers[p].key) !in index)
  {
    if headers == [] {
      at := [];
    } else {
      var n := |headers| - 1;
      var before := UnknownSideKeepsOrder(index, headers[..n]);
      if Lower(headers[n].key) in index {
        at := before;
      } else {
        at := before + [n];
        assert forall p :: p in at <==> p in before || p == n;
      }
    }
  }
}
