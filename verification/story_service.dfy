/** `StoryService` of the browser client: the request URL for a page of stories, built
    by appending optional query parameters to a `URLSearchParams` in a fixed order. */
module StoryService {
  import opened Wrappers
  import opened Text

  const BaseUrl := "http://localhost:5050/api/stories"

  /** Bytes that the application/x-www-form-urlencoded serializer of the WHATWG URL
      Standard (section 5.2) copies as they are: ASCII letters and digits, `*`, `-`, `.`
      and `_`. */
  predicate IsUnreservedByte(b: nat) {
    || 0x30 <= b <= 0x39 || 0x41 <= b <= 0x5A || 0x61 <= b <= 0x7A
    || b == 0x2A || b == 0x2D || b == 0x2E || b == 0x5F
  }

  /** The UTF-8 encoding of one scalar value. */
  function Utf8(c: char): (bytes: seq<nat>)
    ensures 1 <= |bytes| <= 4
    ensures forall i :: 0 <= i < |bytes| ==> bytes[i] < 256
    ensures (c as int) < 0x80 <==> |bytes| == 1
    ensures (c as int) < 0x80 ==> bytes == [c as int]
    ensures (c as int) >= 0x80 ==> forall i :: 0 <= i < |bytes| ==> bytes[i] >= 0x80
  {
    var n := c as int;
    if n < 0x80 then [n]
    else if n < 0x800 then [0xC0 + n / 64, 0x80 + n % 64]
    else if n < 0x10000 then [0xE0 + n / 4096, 0x80 + (n / 64) % 64, 0x80 + n % 64]
    else [0xF0 + n / 262144, 0x80 + (n / 4096) % 64, 0x80 + (n / 64) % 64, 0x80 + n % 64]
  }

  function HexDigit(d: nat): (c: char)
    requires d < 16
  {
    if d < 10 then ('0' as int + d) as char else ('A' as int + d - 10) as char
  }

  /** One byte: a space becomes `+`, an unreserved byte stays, any other byte becomes
      `%` and two upper-case hex digits. */
  function EncodeByte(b: nat): string
    requires b < 256
  {
    if b == 0x20 then "+"
    else if IsUnreservedByte(b) then [b as char]
    else ['%', HexDigit(b / 16), HexDigit(b % 16)]
  }

  function EncodeBytes(bytes: seq<nat>): string
    requires forall i :: 0 <= i < |bytes| ==> bytes[i] < 256
  {
    if bytes == [] then [] else EncodeByte(bytes[0]) + EncodeBytes(bytes[1..])
  }

  /** The form-urlencoded text of a name or value. */
  function Encode(s: string): string
    decreases |s|
  {
    if s == [] then [] else EncodeBytes(Utf8(s[0])) + Encode(s[1..])
  }

  /** Characters an encoded name or value can contain. */
  predicate IsEncodedChar(c: char) {
    IsUnreservedByte(c as int) || c == '+' || c == '%'
  }

  lemma {:induction false} EncodeBytesSafe(bytes: seq<nat>)
    requires forall i :: 0 <= i < |bytes| ==> bytes[i] < 256
    ensures forall i :: 0 <= i < |EncodeBytes(bytes)| ==> IsEncodedChar(EncodeBytes(bytes)[i])
    decreases |bytes|
  {
    if bytes != [] {
      EncodeBytesSafe(bytes[1..]);
      var e := EncodeByte(bytes[0]);
      assert forall i :: 0 <= i < |e| ==> IsEncodedChar(e[i]);
      var r := EncodeBytes(bytes);
      assert r == e + EncodeBytes(bytes[1..]);
      forall i | 0 <= i < |r| ensures IsEncodedChar(r[i]) {
        if i >= |e| { assert r[i] == EncodeBytes(bytes[1..])[i - |e|]; }
      }
    }
  }

  /** An encoded name or value holds only unreserved characters, `+` and `%`: never the
      `&` and `=` that delimit the query. */
  lemma {:induction false} EncodeSafe(s: string)
    ensures forall i :: 0 <= i < |Encode(s)| ==> IsEncodedChar(Encode(s)[i])
    ensures '&' !in Encode(s) && '=' !in Encode(s)
    decreases |s|
  {
    if s != [] {
      EncodeSafe(s[1..]);
      EncodeBytesSafe(Utf8(s[0]));
      var e := EncodeBytes(Utf8(s[0]));
      var r := Encode(s);
      forall i | 0 <= i < |r| ensures IsEncodedChar(r[i]) {
        if i >= |e| { assert r[i] == Encode(s[1..])[i - |e|]; }
      }
    }
  }

  /** Text made of unreserved characters is encoded as itself; this covers the parameter
      names and decimal digits. */
  lemma {:induction false} EncodeUnreserved(s: string)
    requires forall i :: 0 <= i < |s| ==> IsUnreservedByte(s[i] as int)
    ensures Encode(s) == s
    decreases |s|
  {
    if s != [] {
      EncodeUnreserved(s[1..]);
      assert EncodeBytes(Utf8(s[0])) == [s[0]];
    }
  }

  /** A non-negative integer's text is encoded as itself; a negative one's minus sign is
      unreserved too. */
  lemma EncodeNumber(i: int)
    ensures Encode(IntToString(i)) == IntToString(i)
  {
    var s := IntToString(i);
    forall k | 0 <= k < |s| ensures IsUnreservedByte(s[k] as int) {
      if i >= 0 {
        assert IsDigit(s[k]);
      } else if k > 0 {
        assert s[k] == NatToString(-i)[k - 1];
        assert IsDigit(s[k]);
      }
    }
    EncodeUnreserved(s);
  }

  /** `name=value`, both encoded. */
  function Field(pair: (string, string)): string {
    Encode(pair.0) + "=" + Encode(pair.1)
  }

  /** `URLSearchParams.toString()`: the fields joined by `&`. */
  function Serialize(pairs: seq<(string, string)>): string
    decreases |pairs|
  {
    if pairs == [] then ""
    else if |pairs| == 1 then Field(pairs[0])
    else Field(pairs[0]) + "&" + Serialize(pairs[1..])
  }

  /** Splits `s` at every `c`. */
  function SplitOn(s: string, c: char): (parts: seq<string>)
    ensures |parts| >= 1
    decreases |s|
  {
    if s == [] then [""]
    else
      var rest := SplitOn(s[1..], c);
      if s[0] == c then [""] + rest else [[s[0]] + rest[0]] + rest[1..]
  }

  lemma {:induction false} SplitOnNone(a: string, c: char)
    requires c !in a
    ensures SplitOn(a, c) == [a]
    decreases |a|
  {
    if a != [] {
      SplitOnNone(a[1..], c);
      assert [a[0]] + a[1..] == a;
    }
  }

  lemma {:induction false} SplitOnFirst(a: string, c: char, b: string)
    requires c !in a
    ensures SplitOn(a + [c] + b, c) == [a] + SplitOn(b, c)
    decreases |a|
  {
    if a == [] {
      assert a + [c] + b == [c] + b;
      assert ([c] + b)[1..] == b;
    } else {
      var s := a + [c] + b;
      assert s[1..] == a[1..] + [c] + b;
      SplitOnFirst(a[1..], c, b);
      assert [a[0]] + a[1..] == a;
    }
  }

  /** How a server reads a query string back: `&`-separated fields, each split at its
      first `=` into a name and a value (still encoded). */
  function ParseQuery(query: string): seq<(string, string)> {
    if query == "" then []
    else
      var fields := SplitOn(query, '&');
      seq(|fields|, i requires 0 <= i < |fields| => (Before(fields[i], '='), After(fields[i], '=')))
  }

  /** A field never contains the `&` that separates fields. */
  lemma FieldSafe(pair: (string, string))
    ensures '&' !in Field(pair)
  {
    EncodeSafe(pair.0);
    EncodeSafe(pair.1);
  }

  /** The serialized query splits at `&` into one `name=value` field per pair, in order. */
  lemma {:induction false} SerializeFields(pairs: seq<(string, string)>)
    requires pairs != []
    ensures |SplitOn(Serialize(pairs), '&')| == |pairs|
    ensures forall i :: 0 <= i < |pairs| ==> SplitOn(Serialize(pairs), '&')[i] == Field(pairs[i])
    decreases |pairs|
  {
    var f := Field(pairs[0]);
    FieldSafe(pairs[0]);
    if |pairs| == 1 {
      SplitOnNone(f, '&');
    } else {
      var rest := Serialize(pairs[1..]);
      SerializeFields(pairs[1..]);
      assert Serialize(pairs) == f + ['&'] + rest;
      SplitOnFirst(f, '&', rest);
      var parts, restParts := SplitOn(Serialize(pairs), '&'), SplitOn(rest, '&');
      assert parts == [f] + restParts;
      forall i | 0 <= i < |pairs| ensures parts[i] == Field(pairs[i]) {
        if i > 0 {
          assert parts[i] == restParts[i - 1] == Field(pairs[1..][i - 1]);
        }
      }
    }
  }

  /** Each pair with its name and value encoded, in the same order. */
  function EncodePairs(pairs: seq<(string, string)>): (r: seq<(string, string)>)
    ensures |r| == |pairs|
    ensures forall i :: 0 <= i < |pairs| ==> r[i] == (Encode(pairs[i].0), Encode(pairs[i].1))
    decreases |pairs|
  {
    if pairs == [] then [] else [(Encode(pairs[0].0), Encode(pairs[0].1))] + EncodePairs(pairs[1..])
  }

  /** Reading the serialized parameters back gives every appended pair, in append order,
      with its name and value encoded. */
  lemma ParseSerialize(pairs: seq<(string, string)>)
    ensures ParseQuery(Serialize(pairs)) == EncodePairs(pairs)
  {
    if pairs != [] {
      SerializeFields(pairs);
      assert Serialize(pairs) != "" by {
        if |pairs| == 1 { assert |Field(pairs[0])| >= 1; } else { assert |Serialize(pairs)| >= 1; }
      }
      var parsed := ParseQuery(Serialize(pairs));
      forall i | 0 <= i < |pairs| ensures parsed[i] == (Encode(pairs[i].0), Encode(pairs[i].1)) {
        EncodeSafe(pairs[i].0);
        SplitAtFirst(Encode(pairs[i].0), '=', Encode(pairs[i].1));
      }
    }
  }

  /** The `URLSearchParams` builder: name/value pairs in the order they were appended. */
  class UrlSearchParams {
    var pairs: seq<(string, string)>

    constructor()
      ensures pairs == []
    {
      pairs := [];
    }

    method Append(name: string, value: string)
      modifies this
      ensures pairs == old(pairs) + [(name, value)]
    {
      pairs := pairs + [(name, value)];
    }

    function ToString(): string
      reads this
    {
      Serialize(pairs)
    }
  }

  function IndexPair(pageIndex: Option<int>): seq<(string, string)> {
    if pageIndex.Some? then [("pageIndex", IntToString(pageIndex.value))] else []
  }

  function SizePair(pageSize: Option<int>): seq<(string, string)> {
    if pageSize.Some? then [("pageSize", IntToString(pageSize.value))] else []
  }

  function TitlePair(title: Option<string>): seq<(string, string)> {
    if title.Some? && title.value != "" then [("title", title.value)] else []
  }

  /** The parameters the request should carry: `pageIndex` and `pageSize` whenever they
      are given (zero included), `title` whenever it is a non-empty string, in that order. */
  function QueryPairs(pageIndex: Option<int>, pageSize: Option<int>, title: Option<string>): seq<(string, string)> {
    IndexPair(pageIndex) + SizePair(pageSize) + TitlePair(title)
  }

  /** `buildApiUrl`: appends `pageIndex` and `pageSize` when truthy or exactly 0, `title`
      when truthy, and puts the query after the base URL and a `?`. */
  method BuildApiUrl(pageIndex: Option<int>, pageSize: Option<int>, title: Option<string>) returns (url: string)
    ensures url == BaseUrl + "?" + Serialize(QueryPairs(pageIndex, pageSize, title))
  {
    var paramsBuilder := new UrlSearchParams();
    if IsTruthy(pageIndex) || pageIndex == Some(0) {
      paramsBuilder.Append("pageIndex", IntToString(pageIndex.value));
    }
    assert paramsBuilder.pairs == IndexPair(pageIndex);
    if IsTruthy(pageSize) || pageSize == Some(0) {
      paramsBuilder.Append("pageSize", IntToString(pageSize.value));
    }
    assert paramsBuilder.pairs == IndexPair(pageIndex) + SizePair(pageSize);
    if title.Some? && title.value != "" {
      paramsBuilder.Append("title", title.value);
    }
    assert paramsBuilder.pairs == QueryPairs(pageIndex, pageSize, title);
    var query := paramsBuilder.ToString();
    url := BaseUrl + "?" + query;
  }

  /** `getStories`: requests the URL `buildApiUrl` makes of its three arguments. */
  method GetStories(pageIndex: Option<int>, pageSize: Option<int>, title: Option<string>) returns (requestUrl: string)
    ensures requestUrl == BaseUrl + "?" + Serialize(QueryPairs(pageIndex, pageSize, title))
  {
    requestUrl := BuildApiUrl(pageIndex, pageSize, title);
  }

  lemma {:induction false} EncodePairsConcat(a: seq<(string, string)>, b: seq<(string, string)>)
    ensures EncodePairs(a + b) == EncodePairs(a) + EncodePairs(b)
    decreases |a|
  {
    if a == [] {
      assert a + b == b;
    } else {
      assert (a + b)[1..] == a[1..] + b;
      EncodePairsConcat(a[1..], b);
    }
  }

  lemma EncodeIndexPair(pageIndex: Option<int>)
    ensures EncodePairs(IndexPair(pageIndex)) == IndexPair(pageIndex)
  {
    if pageIndex.Some? {
      EncodeUnreserved("pageIndex");
      EncodeNumber(pageIndex.value);
    }
  }

  lemma EncodeSizePair(pageSize: Option<int>)
    ensures EncodePairs(SizePair(pageSize)) == SizePair(pageSize)
  {
    if pageSize.Some? {
      EncodeUnreserved("pageSize");
      EncodeNumber(pageSize.value);
    }
  }

  lemma EncodeTitlePair(title: Option<string>)
    ensures EncodePairs(TitlePair(title))
         == if title.Some? && title.value != "" then [("title", Encode(title.value))] else []
  {
    if title.Some? && title.value != "" {
      EncodeUnreserved("title");
    }
  }

  /** What the server reads from the query: `pageIndex` and `pageSize` with their decimal
      text whenever given, then `title` (encoded) whenever non-empty, in that fixed order,
      and nothing else. */
  lemma ApiQueryParameters(pageIndex: Option<int>, pageSize: Option<int>, title: Option<string>)
    ensures ParseQuery(Serialize(QueryPairs(pageIndex, pageSize, title)))
         == IndexPair(pageIndex) + SizePair(pageSize)
          + (if title.Some? && title.value != "" then [("title", Encode(title.value))] else [])
  {
    ParseSerialize(QueryPairs(pageIndex, pageSize, title));
    EncodePairsConcat(IndexPair(pageIndex) + SizePair(pageSize), TitlePair(title));
    EncodePairsConcat(IndexPair(pageIndex), SizePair(pageSize));
    EncodeIndexPair(pageIndex);
    EncodeSizePair(pageSize);
    EncodeTitlePair(title);
  }

  /** With no parameter to send the URL ends in a bare `?`. */
  lemma NoParametersBareQuestionMark(title: Option<string>)
    requires title.None? || title.value == ""
    ensures BaseUrl + "?" + Serialize(QueryPairs(None, None, title)) == "http://localhost:5050/api/stories?"
  {
  }
}
