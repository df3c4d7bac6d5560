/** Source and destination: `re.search(key + '=<?([^\s>,]*).*? relay=(\S* \[[\d.]*\])', blob)`
    with `key` one of `: from` and `: to`.

    How the pattern matches, position by position: the tag `key=` at `i`, an optional
    `<`, the address as the longest run of characters that are neither whitespace nor
    `>` nor `,` (a shorter run would leave a non-space character where ` relay=` must
    begin, so backtracking into the group never helps), then the least position `p`
    on the same line where ` relay=` is followed by `\S* \[[\d.]*\]`. */
module Endpoints {
  import opened Wrappers
  import opened Text
  import opened Failures

  datatype Endpoint = Endpoint(address: String, relay: String)

  predicate AddressChar(c: char) {
    NotSpace(c) && c != '>' && c != ','
  }

  predicate DigitOrDot(c: char) {
    IsDigit(c) || c == '.'
  }

  const RelayTag: String := " relay="

  /** Where the address group starts: after the tag and an optional `<`. */
  function AddressStart(s: String, i: nat, tag: String): (a: nat)
    requires LitAt(s, i, tag)
    ensures i + |tag| <= a <= |s|
  {
    var a := i + |tag|;
    if a < |s| && s[a] == '<' then a + 1 else a
  }

  function AddressEnd(s: String, i: nat, tag: String): nat
    requires LitAt(s, i, tag)
  {
    Run(s, AddressStart(s, i, tag), AddressChar)
  }

  /** The end of `\S* \[[\d.]*\]` matched at `j`, when it matches there: the host is
      the longest run of non-space characters, which must be followed by ` [`. */
  function RelayEnd(s: String, j: nat): (r: Option<nat>)
    requires j <= |s|
    ensures r.Some? ==> j + 3 <= r.value <= |s|
  {
    var h := Run(s, j, NotSpace);
    if h + 1 < |s| && s[h] == ' ' && s[h + 1] == '[' then
      var d := Run(s, h + 2, DigitOrDot);
      if d < |s| && s[d] == ']' then Some(d + 1) else None
    else None
  }

  predicate RelayAt(s: String, p: nat) {
    LitAt(s, p, RelayTag) && RelayEnd(s, p + |RelayTag|).Some?
  }

  /** The pattern matches with the tag at `i` and ` relay=` at `p`. */
  predicate EndpointMatch(s: String, tag: String, i: nat, p: nat) {
    LitAt(s, i, tag)
    && AddressEnd(s, i, tag) <= p <= LineEnd(s, AddressEnd(s, i, tag))
    && RelayAt(s, p)
  }

  /** The match `re.search` reports: the leftmost start, then the least ` relay=`. */
  ghost predicate FirstEndpointMatch(s: String, tag: String, i: nat, p: nat) {
    && EndpointMatch(s, tag, i, p)
    && (forall i': nat, p': nat :: i' < i ==> !EndpointMatch(s, tag, i', p'))
    && (forall p': nat :: p' < p ==> !EndpointMatch(s, tag, i, p'))
  }

  /** The least ` relay=` position for a match whose tag is at `i`. */
  function RelayFor(s: String, tag: String, i: nat): (r: Option<nat>)
    requires LitAt(s, i, tag)
    ensures r.Some? ==> EndpointMatch(s, tag, i, r.value)
    ensures r.Some? ==> forall p: nat :: p < r.value ==> !EndpointMatch(s, tag, i, p)
    ensures r.None? ==> forall p :: !EndpointMatch(s, tag, i, p)
  {
    var e := AddressEnd(s, i, tag);
    var at := (p: nat) => RelayAt(s, p);
    assert forall p: nat :: at(p) == RelayAt(s, p);
    First(e, LineEnd(s, e), at)
  }

  predicate StartsEndpoint(s: String, tag: String, i: nat) {
    LitAt(s, i, tag) && RelayFor(s, tag, i).Some?
  }

  /** The positions of the match `re.search` finds, if any. */
  function SearchEndpoint(s: String, tag: String): (m: Option<(nat, nat)>)
    ensures m.Some? ==> FirstEndpointMatch(s, tag, m.value.0, m.value.1)
    ensures m.None? ==> forall i, p :: !EndpointMatch(s, tag, i, p)
  {
    var starts := (i: nat) => StartsEndpoint(s, tag, i);
    assert forall i: nat :: starts(i) == StartsEndpoint(s, tag, i);
    var r := First(0, |s|, starts);
    forall i: nat, p: nat | EndpointMatch(s, tag, i, p) ensures StartsEndpoint(s, tag, i) {
      assert LitAt(s, i, tag);
    }
    match r
    case None => None
    case Some(i) => Some((i, RelayFor(s, tag, i).value))
  }

  /** `.groups()` of a match: the address and the relay `host [ip]`. */
  function EndpointGroups(s: String, tag: String, i: nat, p: nat): (e: Endpoint)
    requires EndpointMatch(s, tag, i, p)
    ensures forall k :: 0 <= k < |e.address| ==> AddressChar(e.address[k])
    ensures exists h :: RelayShape(e.relay, h)
  {
    var a, b := AddressStart(s, i, tag), AddressEnd(s, i, tag);
    var j := p + |RelayTag|;
    var end := RelayEnd(s, j).value;
    AddressHasChars(s, a, b);
    RelayHasShape(s, j);
    Endpoint(s[a..b], s[j..end])
  }

  lemma AddressHasChars(s: String, a: nat, b: nat)
    requires a <= |s| && b == Run(s, a, AddressChar)
    ensures forall k :: 0 <= k < |s[a..b]| ==> AddressChar(s[a..b][k])
  {
    forall k | 0 <= k < |s[a..b]| ensures AddressChar(s[a..b][k]) {
      assert s[a..b][k] == s[a + k];
    }
  }

  lemma RelayHasShape(s: String, j: nat)
    requires j <= |s| && RelayEnd(s, j).Some?
    ensures RelayShape(s[j..RelayEnd(s, j).value], Run(s, j, NotSpace) - j)
  {
    var relay := s[j..RelayEnd(s, j).value];
    var h := Run(s, j, NotSpace);
    var d := Run(s, h + 2, DigitOrDot);
    assert RelayEnd(s, j).value == d + 1;
    assert forall k :: 0 <= k < |relay| ==> relay[k] == s[j + k];
  }

  /** `relay` is a host, a space and a bracketed run of digits and dots; the space
      is at `h`. */
  predicate RelayShape(relay: String, h: int) {
    && 0 <= h && h + 3 <= |relay|
    && relay[h] == ' ' && relay[h + 1] == '[' && relay[|relay| - 1] == ']'
    && (forall k :: 0 <= k < h ==> NotSpace(relay[k]))
    && (forall k :: h + 2 <= k < |relay| - 1 ==> DigitOrDot(relay[k]))
  }

  /** Lines 37 to 39 of `main`:
      `re.search(key + pattern, blob).groups() if re.search(key, blob) else None`;
      when `key` occurs but the full pattern does not match, `.groups()` is called on
      `None` and the run fails. */
  function SearchClause(s: String, key: String, field: Field): (r: Result<Option<Endpoint>, Field>)
    ensures r == Ok(None) <==> !Contains(s, key)
    ensures r.Err? <==> Contains(s, key) && forall i, p :: !EndpointMatch(s, key + "=", i, p)
    ensures r.Err? ==> r.error == field
    ensures r.Ok? && r.value.Some? ==>
      exists i, p :: FirstEndpointMatch(s, key + "=", i, p) && r.value.value == EndpointGroups(s, key + "=", i, p)
  {
    forall i: nat, p: nat | EndpointMatch(s, key + "=", i, p) ensures LitAt(s, i, key) {
      assert s[i..i + |key|] == (key + "=")[..|key|];
    }
    if !Contains(s, key) then Ok(None)
    else
      match SearchEndpoint(s, key + "=")
      case None => Err(field)
      case Some((i, p)) => Ok(Some(EndpointGroups(s, key + "=", i, p)))
  }
}
