/** The object paths the web client builds and the server takes apart. Text is its UTF-8
    bytes, each written as the character with that code. */
module PathCodec {
  import opened Prelude
  import opened Text

  ghost predicate IsBytes(s: string) {
    forall i :: 0 <= i < |s| ==> s[i] as int < 256
  }

  predicate Unreserved(c: char) {
    'A' <= c <= 'Z' || 'a' <= c <= 'z' || '0' <= c <= '9' || c in "-_.!~*'()"
  }

  function HexDigit(n: nat): char
    requires n < 16
  {
    if n < 10 then ('0' as int + n) as char else ('A' as int + n - 10) as char
  }

  function HexValue(c: char): Option<nat> {
    if '0' <= c <= '9' then Some(c as int - '0' as int)
    else if 'A' <= c <= 'F' then Some(c as int - 'A' as int + 10)
    else if 'a' <= c <= 'f' then Some(c as int - 'a' as int + 10)
    else None
  }

  function EncodeByte(c: char): string {
    var b := c as int % 256;
    if Unreserved(c) then [c] else ['%', HexDigit(b / 16), HexDigit(b % 16)]
  }

  function EncodeComponent(s: string): string {
    if s == "" then "" else EncodeByte(s[0]) + EncodeComponent(s[1..])
  }

  function EncodeAll(parts: seq<string>): (r: seq<string>)
    ensures |r| == |parts|
  {
    if parts == [] then [] else [EncodeComponent(parts[0])] + EncodeAll(parts[1..])
  }

  /** Encodes each segment and keeps the separators. */
  function EncodeKey(key: string): string {
    Join(EncodeAll(Split(key, '/')), '/')
  }

  const PREFIX := "/api/v1/buckets/"

  function BuildPath(bucket: string, route: string, key: string): string {
    PREFIX + EncodeComponent(bucket) + route + EncodeKey(key)
  }

  /** Percent-decoding, section 2.1 of RFC 3986. */
  function Decode(s: string): Option<string> {
    if s == "" then Some("")
    else if s[0] != '%' then Prepend(s[0], Decode(s[1..]))
    else if |s| < 3 then None
    else
      match (HexValue(s[1]), HexValue(s[2]))
      case (Some(h), Some(l)) => Prepend((h * 16 + l) as char, Decode(s[3..]))
      case _ => None
  }

  function Prepend(c: char, rest: Option<string>): Option<string> {
    match rest
    case None => None
    case Some(t) => Some([c] + t)
  }

  /** Where `sub` first occurs. */
  function Find(s: string, sub: string): (r: Option<nat>)
    ensures r.Some? ==> r.value + |sub| <= |s|
  {
    if sub <= s then Some(0)
    else if s == "" then None
    else
      match Find(s[1..], sub)
      case None => None
      case Some(k) => Some(k + 1)
  }

  /** The server's fallback splitter, for requests that come without the router's values: the
      text before and after the first `route`. */
  function Extract(path: string, route: string): (string, string) {
    if !(PREFIX <= path) then ("", "")
    else
      var rest := path[|PREFIX|..];
      match Find(rest, route)
      case None => ("", "")
      case Some(k) => (rest[..k], rest[k + |route|..])
  }

  /** What a handler takes as bucket and key: the router's two values if neither is empty,
      and otherwise what the fallback splitter makes of the path. */
  function FromRequest(bucketValue: string, keyValue: string, path: string, route: string): (string, string) {
    if bucketValue != "" && keyValue != "" then (bucketValue, keyValue) else Extract(path, route)
  }

  // ---------- decoding undoes encoding ----------

  lemma {:induction false} HexRoundTrip(b: nat)
    requires b < 256
    ensures HexValue(HexDigit(b / 16)) == Some(b / 16) && HexValue(HexDigit(b % 16)) == Some(b % 16)
  {
  }

  lemma {:induction false} DecodeEscape(h: char, l: char, tail: string)
    requires HexValue(h).Some? && HexValue(l).Some?
    ensures Decode(['%', h, l] + tail)
         == Prepend((HexValue(h).value * 16 + HexValue(l).value) as char, Decode(tail))
  {
    assert (['%', h, l] + tail)[3..] == tail;
  }

  lemma {:induction false} DecodeOther(c: char, tail: string)
    requires c != '%'
    ensures Decode([c] + tail) == Prepend(c, Decode(tail))
  {
    assert ([c] + tail)[1..] == tail;
  }

  lemma {:induction false} DecodeHex(b: nat, tail: string)
    requires b < 256
    ensures Decode(['%', HexDigit(b / 16), HexDigit(b % 16)] + tail) == Prepend(b as char, Decode(tail))
  {
    hide Decode, HexDigit, HexValue, Prepend;
    HexRoundTrip(b);
    DecodeEscape(HexDigit(b / 16), HexDigit(b % 16), tail);
    assert b / 16 * 16 + b % 16 == b;
  }

  lemma {:induction false} PercentIsReserved()
    ensures !Unreserved('%')
  {
  }

  lemma {:induction false} DecodeByte(c: char, tail: string)
    requires c as int < 256
    ensures Decode(EncodeByte(c) + tail) == Prepend(c, Decode(tail))
  {
    hide Decode, Unreserved, HexDigit, HexValue, Prepend;
    PercentIsReserved();
    if Unreserved(c) {
      DecodeOther(c, tail);
    } else {
      DecodeHex(c as int, tail);
    }
  }

  lemma {:induction false} DecodeComponent(s: string, rest: string)
    requires IsBytes(s) && Decode(rest).Some?
    ensures Decode(EncodeComponent(s) + rest) == Some(s + Decode(rest).value)
    decreases |s|
  {
    hide Decode;
    hide EncodeByte;
    if s == "" {
      assert EncodeComponent(s) + rest == rest && s + Decode(rest).value == Decode(rest).value;
    } else {
      var tail := EncodeComponent(s[1..]) + rest;
      DecodeComponent(s[1..], rest);
      DecodeByte(s[0], tail);
      assert EncodeComponent(s) + rest == EncodeByte(s[0]) + tail;
      assert s + Decode(rest).value == [s[0]] + (s[1..] + Decode(rest).value);
    }
  }

  lemma {:induction false} DecodePlain(s: string, rest: string)
    requires '%' !in s && Decode(rest).Some?
    ensures Decode(s + rest) == Some(s + Decode(rest).value)
    decreases |s|
  {
    if s == "" {
      assert s + rest == rest && s + Decode(rest).value == Decode(rest).value;
    } else {
      DecodePlain(s[1..], rest);
      assert (s + rest)[1..] == s[1..] + rest;
      assert s + Decode(rest).value == [s[0]] + (s[1..] + Decode(rest).value);
    }
  }

  lemma {:induction false} DecodeEmpty()
    ensures Decode("") == Some("")
  {
  }

  lemma {:induction false} DecodeJoined(parts: seq<string>)
    requires |parts| >= 1 && forall i :: 0 <= i < |parts| ==> IsBytes(parts[i])
    ensures Decode(Join(EncodeAll(parts), '/')) == Some(Join(parts, '/'))
    decreases |parts|
  {
    hide Decode;
    hide EncodeComponent;
    DecodeEmpty();
    if |parts| == 1 {
      DecodeComponent(parts[0], "");
      assert EncodeComponent(parts[0]) + "" == EncodeComponent(parts[0]) && parts[0] + "" == parts[0];
    } else {
      DecodeJoined(parts[1..]);
      var encoded := Join(EncodeAll(parts[1..]), '/');
      assert EncodeAll(parts)[1..] == EncodeAll(parts[1..]);
      DecodePlain("/", encoded);
      DecodeComponent(parts[0], "/" + encoded);
      assert Join(EncodeAll(parts), '/') == EncodeComponent(parts[0]) + ("/" + encoded);
      assert Join(parts, '/') == parts[0] + ("/" + Join(parts[1..], '/'));
    }
  }

  lemma {:induction false} SplitKeepsBytes(s: string, sep: char)
    requires IsBytes(s)
    ensures forall i :: 0 <= i < |Split(s, sep)| ==> IsBytes(Split(s, sep)[i])
    decreases |s|
  {
    var at := IndexOf(s, sep);
    if at.Some? {
      SplitKeepsBytes(s[at.value + 1..], sep);
    }
  }

  lemma {:induction false} DecodeKey(key: string)
    requires IsBytes(key)
    ensures Decode(EncodeKey(key)) == Some(key)
  {
    hide Decode;
    SplitKeepsBytes(key, '/');
    DecodeJoined(Split(key, '/'));
    JoinSplit(key, '/');
  }

  lemma {:induction false} DecodeAround(prefix: string, bucket: string, route: string, key: string)
    requires IsBytes(bucket) && IsBytes(key) && '%' !in prefix && '%' !in route
    ensures Decode(prefix + EncodeComponent(bucket) + route + EncodeKey(key)) == Some(prefix + bucket + route + key)
  {
    hide Decode;
    hide EncodeComponent;
    hide EncodeKey;
    DecodeKey(key);
    DecodePlain(route, EncodeKey(key));
    DecodeComponent(bucket, route + EncodeKey(key));
    DecodePlain(prefix, EncodeComponent(bucket) + (route + EncodeKey(key)));
    assert prefix + EncodeComponent(bucket) + route + EncodeKey(key)
        == prefix + (EncodeComponent(bucket) + (route + EncodeKey(key)));
    assert prefix + bucket + route + key == prefix + (bucket + (route + key));
  }

  /** What the server decodes is the plain path, whatever bytes bucket and key hold. */
  lemma {:induction false} DecodedPath(bucket: string, route: string, key: string)
    requires IsBytes(bucket) && IsBytes(key) && '%' !in route
    ensures Decode(BuildPath(bucket, route, key)) == Some("/api/v1/buckets/" + bucket + route + key)
  {
    hide Decode;
    hide EncodeComponent;
    hide EncodeKey;
    DecodeAround(PREFIX, bucket, route, key);
  }

  // ---------- splitting finds the right separator ----------

  /** `sub` does not occur before position `k`. */
  ghost predicate AbsentBefore(s: string, sub: string, k: nat) {
    forall i :: 0 <= i < k && i <= |s| ==> !(sub <= s[i..])
  }

  lemma {:induction false} AbsentStep(s: string, sub: string, k: nat)
    requires s != "" && !(sub <= s) && AbsentBefore(s[1..], sub, k)
    ensures AbsentBefore(s, sub, k + 1)
  {
    assert s[0..] == s;
    forall i | 1 <= i < k + 1 && i <= |s| ensures !(sub <= s[i..]) {
      assert s[i..] == s[1..][i - 1..];
    }
  }

  lemma {:induction false} FindFirst(s: string, sub: string)
    ensures Find(s, sub).Some? ==>
      var k := Find(s, sub).value;
      k + |sub| <= |s| && sub <= s[k..] && AbsentBefore(s, sub, k)
    ensures Find(s, sub).None? ==> AbsentBefore(s, sub, |s| + 1)
    decreases |s|
  {
    if sub <= s {
      assert s[0..] == s;
    } else if s == "" {
      assert s[0..] == s;
    } else {
      FindFirst(s[1..], sub);
      hide AbsentBefore;
      if Find(s[1..], sub).None? {
        AbsentStep(s, sub, |s|);
      } else {
        var k := Find(s[1..], sub).value;
        AbsentStep(s, sub, k);
        assert s[k + 1..] == s[1..][k..];
      }
    }
  }

  lemma {:induction false} FindsAt(s: string, sub: string, n: nat)
    requires n <= |s| && sub <= s[n..]
    ensures Find(s, sub).Some? && Find(s, sub).value <= n
  {
    FindFirst(s, sub);
  }

  /** Text after an occurrence does not move the first occurrence. */
  lemma {:induction false} FindIgnoresTail(t: string, sub: string, tail: string, n: nat)
    requires n + |sub| == |t| && sub <= t[n..]
    ensures Find(t, sub).Some? && Find(t, sub).value <= n
    ensures Find(t + tail, sub) == Find(t, sub)
  {
    hide Find;
    var s := t + tail;
    forall i | 0 <= i <= n ensures sub <= s[i..] <==> sub <= t[i..] {
      assert s[i..] == t[i..] + tail;
      assert s[i..][..|sub|] == t[i..][..|sub|];
    }
    FindsAt(t, sub, n);
    FindsAt(s, sub, n);
    FindFirst(t, sub);
    FindFirst(s, sub);
  }

  lemma {:induction false} ExtractIff(bucket: string, route: string, key: string)
    ensures Extract(PREFIX + bucket + route + key, route) == (bucket, key)
       <==> Find(bucket + route, route) == Some(|bucket|)
  {
    var path, rest := PREFIX + bucket + route + key, bucket + route + key;
    assert path[|PREFIX|..] == rest && PREFIX <= path;
    assert (bucket + route)[|bucket|..] == route && rest == bucket + route + key;
    FindIgnoresTail(bucket + route, route, key, |bucket|);
    FindFirst(bucket + route, route);
    var k := Find(bucket + route, route).value;
    assert |rest[..k]| == k;
    if k == |bucket| {
      assert rest[..k] == bucket && rest[k + |route|..] == key;
    }
  }

  /** The fallback splitter recovers bucket and key from the path the client built exactly
      when the separator first occurs right after the bucket. */
  lemma {:induction false} PathRoundTripIff(bucket: string, route: string, key: string)
    requires IsBytes(bucket) && IsBytes(key) && route in {"/objects/", "/meta/"}
    ensures var decoded := Decode(BuildPath(bucket, route, key));
      && decoded.Some?
      && (Extract(decoded.value, route) == (bucket, key) <==> Find(bucket + route, route) == Some(|bucket|))
  {
    DecodedPath(bucket, route, key);
    ExtractIff(bucket, route, key);
  }

  /** That holds for every bucket name without a slash, even if the key itself contains the
      separator. */
  lemma {:induction false} PathRoundTrip(bucket: string, route: string, key: string)
    requires IsBytes(bucket) && IsBytes(key) && route in {"/objects/", "/meta/"} && '/' !in bucket
    ensures var decoded := Decode(BuildPath(bucket, route, key));
      decoded.Some? && Extract(decoded.value, route) == (bucket, key)
  {
    PathRoundTripIff(bucket, route, key);
    var s := bucket + route;
    FindFirst(s, route);
    assert s[|bucket|..] == route;
    FindsAt(s, route, |bucket|);
    assert route[0] == '/';
    forall i | 0 <= i < |bucket| ensures !(route <= s[i..]) {
      assert s[i..][0] == bucket[i];
    }
  }

  /** A handler given the router's values, equal to what the client encoded, sees that bucket
      and key exactly when both are nonempty or the fallback splitter gets them right. */
  lemma {:induction false} RequestRoundTripIff(bucket: string, route: string, key: string)
    requires IsBytes(bucket) && IsBytes(key) && route in {"/objects/", "/meta/"}
    ensures var decoded := Decode(BuildPath(bucket, route, key));
      && decoded.Some?
      && (FromRequest(bucket, key, decoded.value, route) == (bucket, key)
          <==> (bucket != "" && key != "") || Find(bucket + route, route) == Some(|bucket|))
  {
    hide Decode, BuildPath, Extract, Find;
    PathRoundTripIff(bucket, route, key);
  }

  /** The fallback splitter splits a bucket name that contains the separator too early. */
  lemma {:induction false} SlashedBucketFails(head: string, tail: string, route: string, key: string)
    requires IsBytes(head) && IsBytes(tail) && IsBytes(key) && route in {"/objects/", "/meta/"}
    ensures IsBytes(head + route + tail)
    ensures var decoded := Decode(BuildPath(head + route + tail, route, key));
      decoded.Some? && Extract(decoded.value, route) != (head + route + tail, key)
  {
    hide Decode;
    hide BuildPath;
    hide Extract;
    var bucket := head + route + tail;
    assert IsBytes(bucket);
    PathRoundTripIff(bucket, route, key);
    assert (bucket + route)[|head|..] == route + (tail + route);
    FindsAt(bucket + route, route, |head|);
  }

  // ---------- what is sent over the wire ----------

  function Hex(n: nat): char
    requires n < 16
  {
    "0123456789ABCDEF"[n]
  }

  /** Printable, and none of the characters that mean something in a URL or are unsafe in
      one. */
  ghost predicate Kept(c: char) {
    '!' <= c <= '~' && c !in "\"#$%&+,/:;<=>?@[\\]^`{|}"
  }

  lemma {:induction false} UnreservedIff(c: char)
    ensures Unreserved(c) <==> Kept(c)
  {
  }

  lemma {:induction false} HexDigitIs(n: nat)
    requires n < 16
    ensures HexDigit(n) == Hex(n) && Kept(HexDigit(n))
  {
  }

  lemma {:induction false} EncodeCons(c: char, rest: string)
    ensures EncodeComponent("") == "" && EncodeComponent([c] + rest) == EncodeByte(c) + EncodeComponent(rest)
  {
    hide EncodeByte;
    assert ([c] + rest)[1..] == rest;
  }

  /** Exactly those characters are sent as they are; every other byte is sent as `%` and two
      upper-case hexadecimal digits. */
  lemma {:induction false} EncodedIs(c: char, rest: string)
    requires c as int < 256
    ensures EncodeComponent("") == ""
    ensures Kept(c) ==> EncodeComponent([c] + rest) == [c] + EncodeComponent(rest)
    ensures !Kept(c) ==>
      EncodeComponent([c] + rest) == ['%', Hex(c as int / 16), Hex(c as int % 16)] + EncodeComponent(rest)
  {
    hide *;
    EncodeCons(c, rest);
    EncodedByteIs(c);
  }

  lemma {:induction false} EncodedByteIs(c: char)
    requires c as int < 256
    ensures EncodeByte(c) == if Kept(c) then [c] else ['%', Hex(c as int / 16), Hex(c as int % 16)]
  {
    hide Unreserved, HexDigit, Hex, Kept;
    UnreservedIff(c);
    HexDigitIs(c as int / 16);
    HexDigitIs(c as int % 16);
  }

  /** Kept characters, escapes and slashes only. */
  ghost predicate PlainPath(s: string) {
    forall i :: 0 <= i < |s| ==> Kept(s[i]) || s[i] == '%' || s[i] == '/'
  }

  lemma {:induction false} PlainPathJoins(a: string, b: string)
    ensures PlainPath(a + b) <==> PlainPath(a) && PlainPath(b)
  {
    hide Kept;
    assert forall i :: 0 <= i < |a| ==> (a + b)[i] == a[i];
    assert forall i :: 0 <= i < |b| ==> (a + b)[|a| + i] == b[i];
  }

  lemma {:induction false} PlainByte(c: char)
    ensures PlainPath(EncodeByte(c))
  {
    var b := c as int % 256;
    hide Unreserved, HexDigit, Hex, Kept;
    UnreservedIff(c);
    HexDigitIs(b / 16);
    HexDigitIs(b % 16);
  }

  lemma {:induction false} PlainComponent(s: string)
    ensures PlainPath(EncodeComponent(s))
    decreases |s|
  {
    hide EncodeByte;
    hide Kept;
    if s != "" {
      PlainComponent(s[1..]);
      PlainByte(s[0]);
      PlainPathJoins(EncodeByte(s[0]), EncodeComponent(s[1..]));
    }
  }

  lemma {:induction false} PlainKey(parts: seq<string>)
    requires |parts| >= 1
    ensures PlainPath(Join(EncodeAll(parts), '/'))
    decreases |parts|
  {
    hide EncodeComponent, Kept;
    PlainComponent(parts[0]);
    if |parts| > 1 {
      PlainKey(parts[1..]);
      var rest := Join(EncodeAll(parts[1..]), '/');
      assert EncodeAll(parts)[1..] == EncodeAll(parts[1..]);
      assert Join(EncodeAll(parts), '/') == EncodeComponent(parts[0]) + ("/" + rest);
      PlainPathJoins("/", rest);
      PlainPathJoins(EncodeComponent(parts[0]), "/" + rest);
    }
  }

  lemma {:induction false} PlainIfUnreserved(s: string)
    requires forall i :: 0 <= i < |s| ==> Unreserved(s[i]) || s[i] == '/'
    ensures PlainPath(s)
  {
    hide Unreserved, Kept;
    forall i | 0 <= i < |s| ensures Kept(s[i]) || s[i] == '/' {
      UnreservedIff(s[i]);
    }
  }

  lemma {:induction false} PlainPrefix()
    ensures PlainPath("/api/v1/buckets/")
  {
    hide PlainPath, Kept;
    PlainIfUnreserved("/api/v1/buckets/");
  }

  lemma {:induction false} PlainRoute(route: string)
    requires route in {"/objects/", "/meta/"}
    ensures PlainPath(route)
  {
    hide PlainPath, Kept;
    PlainIfUnreserved(route);
  }

  /** The path the client builds holds no `?`, `#`, space or other character that would end
      or change it, whatever bucket and key hold. */
  lemma {:induction false} PathIsPlain(bucket: string, route: string, key: string)
    requires route in {"/objects/", "/meta/"}
    ensures PlainPath(BuildPath(bucket, route, key))
  {
    PlainPrefix();
    PlainRoute(route);
    PlainComponent(bucket);
    PlainKey(Split(key, '/'));
    hide PlainPath, EncodeComponent, Join, Split;
    PlainPathJoins(PREFIX, EncodeComponent(bucket));
    PlainPathJoins(PREFIX + EncodeComponent(bucket), route);
    PlainPathJoins(PREFIX + EncodeComponent(bucket) + route, EncodeKey(key));
  }

  /** The fallback splitter finds nothing in a path of another form. */
  lemma {:induction false} ExtractNothing(path: string, route: string)
    ensures !("/api/v1/buckets/" <= path) ==> Extract(path, route) == ("", "")
    ensures "/api/v1/buckets/" <= path && Find(path[16..], route) == None ==> Extract(path, route) == ("", "")
  {
  }
}
