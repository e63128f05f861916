/** From the claims of a verified token to the group names the decision reads. */
module Claims {
  import opened Prelude
  import opened Text
  import opened Acl

  /** A claim value; `Strings` is a list the token library already typed as strings. */
  datatype Json =
    | Null
    | Bool(flag: bool)
    | Number(value: real)
    | Str(text: string)
    | Strings(names: seq<string>)
    | Array(items: seq<Json>)
    | Object(fields: map<string, Json>)

  function StripLeadingSlash(s: string): string {
    TrimPrefixChar(s, '/')
  }

  /** The strings among some values, in order. */
  function Texts(items: seq<Json>): seq<string> {
    if items == [] then []
    else
      var n := |items| - 1;
      Texts(items[..n]) + (if items[n].Str? then [items[n].text] else [])
  }

  function Stripped(names: seq<string>): seq<string> {
    seq(|names|, i requires 0 <= i < |names| => StripLeadingSlash(names[i]))
  }

  function Field(v: Json, name: string): Option<Json> {
    if v.Object? && name in v.fields then Some(v.fields[name]) else None
  }

  /** The strings of an array claim; nothing for any other value. */
  function ArrayTexts(v: Option<Json>): seq<string> {
    if v.Some? && v.value.Array? then Texts(v.value.items) else []
  }

  /** The strings the default extraction reads, before slashes are stripped. */
  function RawGroups(claims: map<string, Json>): seq<string> {
    var access := Field(Object(claims), "realm_access");
    ArrayTexts(Field(Object(claims), "groups"))
    + (if access.Some? then ArrayTexts(Field(access.value, "roles")) else [])
  }

  method ExtractGroups(claims: map<string, Json>) returns (groups: seq<string>)
    ensures groups == Stripped(RawGroups(claims))
  {
    groups := [];
    if "groups" in claims && claims["groups"].Array? {
      groups := AppendStripped(groups, claims["groups"].items);
    }
    ghost var direct := ArrayTexts(Field(Object(claims), "groups"));
    assert groups == Stripped(direct);
    if "realm_access" in claims && claims["realm_access"].Object? {
      var access := claims["realm_access"].fields;
      if "roles" in access && access["roles"].Array? {
        groups := AppendStripped(groups, access["roles"].items);
      }
    }
  }

  method AppendStripped(groups: seq<string>, items: seq<Json>) returns (longer: seq<string>)
    ensures longer == groups + Stripped(Texts(items))
  {
    longer := groups;
    for i := 0 to |items|
      invariant longer == groups + Stripped(Texts(items[..i]))
    {
      assert items[..i + 1][..i] == items[..i];
      if items[i].Str? {
        longer := longer + [StripLeadingSlash(items[i].text)];
      }
    }
    assert items[..|items|] == items;
  }

  /** The value under nested objects, one name after another. */
  function Lookup(v: Json, parts: seq<string>): Option<Json> {
    if parts == [] then Some(v)
    else
      match Field(v, parts[0])
      case None => None
      case Some(w) => Lookup(w, parts[1..])
  }

  method LookupClaim(claims: map<string, Json>, path: string) returns (found: Option<Json>)
    ensures found == Lookup(Object(claims), Split(path, '.'))
  {
    var parts := Split(path, '.');
    var cur := Object(claims);
    for i := 0 to |parts|
      invariant Lookup(cur, parts[i..]) == Lookup(Object(claims), parts)
    {
      assert parts[i..][1..] == parts[i + 1..];
      if !cur.Object? || parts[i] !in cur.fields {
        return None;
      }
      cur := cur.fields[parts[i]];
    }
    return Some(cur);
  }

  // ---------- a configured claim ----------

  ghost predicate Ascending(names: seq<string>) {
    forall i, j :: 0 <= i < j < |names| ==> !Less(names[j], names[i])
  }

  /** How many keys of an object read as `name` once a leading slash is stripped: the key
      with a slash in front, and the key itself unless stripping changes it. */
  function KeysReadAs(fields: map<string, Json>, name: string): nat {
    (if "/" + name in fields then 1 else 0) + (if name in fields && (name == "" || name[0] != '/') then 1 else 0)
  }

  /** What a configured claim means: an array's strings in order, an object's keys sorted,
      or a single nonempty string, each without its leading slash. */
  ghost predicate IsGroupNames(v: Json, names: seq<string>) {
    match v
    case Array(items) => names == Stripped(Texts(items))
    case Strings(texts) => names == Stripped(texts)
    case Object(fields) => Ascending(names) && forall x :: multiset(names)[x] == KeysReadAs(fields, x)
    case Str(text) => names == if text == "" then [] else [StripLeadingSlash(text)]
    case _ => names == []
  }

  method ToGroupStrings(v: Json) returns (out: seq<string>)
    ensures IsGroupNames(v, out)
  {
    out := [];
    match v
    case Array(items) =>
      out := AppendStripped([], items);
    case Strings(texts) =>
      for i := 0 to |texts|
        invariant out == Stripped(texts[..i])
      {
        out := out + [StripLeadingSlash(texts[i])];
      }
      assert texts[..|texts|] == texts;
    case Object(fields) =>
      out := StrippedKeys(fields);
      SortAscends(out);
      out := Sort(out);
    case Str(text) =>
      if text != "" {
        out := [StripLeadingSlash(text)];
      }
    case _ =>
  }

  /** Go ranges over a map in no fixed order. */
  method StrippedKeys(fields: map<string, Json>) returns (out: seq<string>)
    ensures forall x :: multiset(out)[x] == KeysReadAs(fields, x)
  {
    out := [];
    var todo := fields.Keys;
    while todo != {}
      invariant todo <= fields.Keys
      invariant forall x :: multiset(out)[x] == KeysReadAs(fields - todo, x)
    {
      var k :| k in todo;
      ghost var before, was := fields - todo, out;
      out, todo := out + [StripLeadingSlash(k)], todo - {k};
      forall x ensures multiset(out)[x] == KeysReadAs(fields - todo, x) {
        StripReads(k, x);
        assert multiset(was)[x] == KeysReadAs(before, x);
      }
    }
    assert fields - todo == fields;
  }

  lemma {:induction false} StripReads(k: string, x: string)
    ensures StripLeadingSlash(k) == x <==> k == "/" + x || (k == x && (x == "" || x[0] != '/'))
  {
  }

  /** The mapper's groups: the default extraction when no claim is configured. */
  method Groups(groupsClaim: string, claims: map<string, Json>) returns (groups: seq<string>)
    ensures groupsClaim == "" ==> groups == Stripped(RawGroups(claims))
    ensures groupsClaim != "" ==> AreGroups(Lookup(Object(claims), Split(groupsClaim, '.')), groups)
  {
    if groupsClaim == "" {
      groups := ExtractGroups(claims);
    } else {
      var found := LookupClaim(claims, groupsClaim);
      if found.None? {
        return [];
      }
      groups := ToGroupStrings(found.value);
    }
  }

  /** What a claim that may be absent means. */
  ghost predicate AreGroups(v: Option<Json>, names: seq<string>) {
    if v.None? then names == [] else IsGroupNames(v.value, names)
  }

  // ---------- sorting with repeats ----------

  lemma {:induction false} HeadCount(names: seq<string>)
    requires names != []
    ensures multiset(names) == multiset{names[0]} + multiset(names[1..])
  {
    assert names == [names[0]] + names[1..];
  }

  lemma {:induction false} InsertCounts(name: string, names: seq<string>)
    ensures multiset(Insert(name, names)) == multiset{name} + multiset(names)
    decreases |names|
  {
    if names != [] && !Less(name, names[0]) {
      InsertCounts(name, names[1..]);
      HeadCount(names);
    }
  }

  lemma {:induction false} InsertAscends(name: string, names: seq<string>)
    requires Ascending(names)
    ensures Ascending(Insert(name, names))
    decreases |names|
  {
    if names != [] {
      if Less(name, names[0]) {
        forall j | 0 <= j < |names| ensures !Less(names[j], name) {
          if Less(names[j], name) {
            LessTransitive(names[j], name, names[0]);
            LessIrreflexive(names[0]);
          }
        }
      } else {
        var rest := Insert(name, names[1..]);
        InsertAscends(name, names[1..]);
        InsertCounts(name, names[1..]);
        forall j | 0 <= j < |rest| ensures !Less(rest[j], names[0]) {
          assert rest[j] in multiset(rest);
          assert rest[j] == name || rest[j] in names[1..];
        }
      }
    }
  }

  lemma {:induction false} SortAscends(names: seq<string>)
    ensures Ascending(Sort(names)) && multiset(Sort(names)) == multiset(names)
    decreases |names|
  {
    if names != [] {
      SortAscends(names[1..]);
      HeadCount(names);
      InsertAscends(names[0], Sort(names[1..]));
      InsertCounts(names[0], Sort(names[1..]));
    }
  }

  lemma {:induction false} LeastFirst(names: seq<string>, x: string)
    requires Ascending(names) && x in multiset(names)
    ensures !Less(x, names[0])
  {
    var i :| 0 <= i < |names| && names[i] == x;
    LessIrreflexive(x);
  }

  lemma {:induction false} AscendingUnique(a: seq<string>, b: seq<string>)
    requires Ascending(a) && Ascending(b) && multiset(a) == multiset(b)
    ensures a == b
    decreases |a|
  {
    assert |multiset(a)| == |a| && |multiset(b)| == |b|;
    if a != [] {
      HeadCount(a);
      HeadCount(b);
      LeastFirst(b, a[0]);
      LeastFirst(a, b[0]);
      LessTotal(a[0], b[0]);
      EqualRests(a[0], multiset(a[1..]), multiset(b[1..]));
      AscendingUnique(a[1..], b[1..]);
      assert a == [a[0]] + a[1..] && b == [b[0]] + b[1..];
    }
  }

  lemma {:induction false} EqualRests(x: string, a: multiset<string>, b: multiset<string>)
    requires multiset{x} + a == multiset{x} + b
    ensures a == b
  {
    assert a == (multiset{x} + a) - multiset{x};
    assert b == (multiset{x} + b) - multiset{x};
  }

  /** A claim has one reading, although an object's keys come in no fixed order. */
  lemma {:induction false} GroupNamesUnique(v: Json, a: seq<string>, b: seq<string>)
    requires IsGroupNames(v, a) && IsGroupNames(v, b)
    ensures a == b
  {
    if v.Object? {
      AscendingUnique(a, b);
    }
  }

  // ---------- what stripping means for access ----------

  /** Stripping a slash never changes what a group grants. */
  lemma {:induction false} StripKeepsParse(s: string)
    ensures ParseGroup(StripLeadingSlash(s)) == ParseGroup(s)
  {
  }

  lemma {:induction false} StripKeepsDecision(names: seq<string>, bucket: string, m: string)
    ensures Granted(Stripped(names), bucket, m) <==> Granted(names, bucket, m)
  {
    hide ParseGroup;
    var stripped := Stripped(names);
    forall i | 0 <= i < |names| ensures Allows(stripped[i], bucket, m) <==> Allows(names[i], bucket, m) {
      StripKeepsParse(names[i]);
    }
  }

  /** With the default mapping, a token grants what the strings in its two claims grant. */
  lemma {:induction false} DefaultDecision(claims: map<string, Json>, bucket: string, m: string)
    ensures Granted(Stripped(RawGroups(claims)), bucket, m)
       <==> exists s :: s in RawGroups(claims) && Allows(s, bucket, m)
  {
    var raw := RawGroups(claims);
    StripKeepsDecision(raw, bucket, m);
    if Granted(raw, bucket, m) {
      var i :| 0 <= i < |raw| && Allows(raw[i], bucket, m);
      assert raw[i] in raw;
    }
  }

  // ---------- the default as two configured claims ----------

  lemma {:induction false} SplitOne(a: string)
    requires '.' !in a
    ensures Split(a, '.') == [a]
  {
  }

  lemma {:induction false} SplitTwo(a: string, b: string)
    requires '.' !in a && '.' !in b
    ensures Split(a + "." + b, '.') == [a, b]
  {
    var s := a + "." + b;
    assert s[|a|] == '.';
    var k := IndexOf(s, '.').value;
    assert forall i :: 0 <= i < |a| ==> s[i] == a[i];
    assert forall i :: 0 <= i < k ==> s[i] == s[..k][i];
    assert k == |a|;
    assert s[..k] == a && s[k + 1..] == b;
    SplitOne(b);
  }

  /** The claim, read as configured, gives only what the default extraction reads from it. */
  predicate ReadsAsArray(v: Option<Json>) {
    v.Some? ==>
      match v.value
      case Str(text) => text == ""
      case Strings(names) => names == []
      case Object(fields) => fields == map[]
      case _ => true
  }

  lemma {:induction false} ReadsAsArrayIff(v: Option<Json>, names: seq<string>)
    requires AreGroups(v, names)
    ensures |Stripped(ArrayTexts(v))| <= |names|
    ensures ReadsAsArray(v) <==> names == Stripped(ArrayTexts(v))
  {
    if v.Some? && v.value.Object? {
      var fields := v.value.fields;
      if fields == map[] {
        assert forall x :: multiset(names)[x] == 0;
        assert multiset(names) == multiset{};
        assert |names| == |multiset(names)|;
      } else {
        var k :| k in fields;
        var x := StripLeadingSlash(k);
        StripReads(k, x);
        assert multiset(names)[x] == KeysReadAs(fields, x);
        assert x in multiset(names);
      }
    }
  }

  /** The default extraction is the two configured claims one after the other exactly when
      neither claim is a nonempty string, string list or object. */
  lemma {:induction false} DefaultIsTwoClaims(claims: map<string, Json>, groups: seq<string>, roles: seq<string>)
    requires AreGroups(Lookup(Object(claims), Split("groups", '.')), groups)
    requires AreGroups(Lookup(Object(claims), Split("realm_access" + "." + "roles", '.')), roles)
    ensures Stripped(RawGroups(claims)) == groups + roles
       <==> ReadsAsArray(Field(Object(claims), "groups"))
            && ReadsAsArray(Lookup(Object(claims), ["realm_access", "roles"]))
  {
    hide Split;
    SplitOne("groups");
    SplitTwo("realm_access", "roles");
    var top := Object(claims);
    var direct, nested := Field(top, "groups"), Lookup(top, ["realm_access", "roles"]);
    LookupOne(top, "groups");
    LookupTwo(top, "realm_access", "roles");
    ReadsAsArrayIff(direct, groups);
    ReadsAsArrayIff(nested, roles);
    var a, b := Stripped(ArrayTexts(direct)), Stripped(ArrayTexts(nested));
    assert Stripped(RawGroups(claims)) == a + b;
    if a + b == groups + roles {
      assert |a| == |groups| && |b| == |roles|;
      assert a == (a + b)[..|a|] == groups;
      assert b == (a + b)[|a|..] == roles;
    }
  }

  /** A token whose `groups` claim is the single string `a-ro` has no groups by default, and
      one when that claim is configured. */
  lemma {:induction false} StringClaimDiffers()
    ensures var claims: map<string, Json> := map["groups" := Str("a-ro")];
      && Stripped(RawGroups(claims)) == []
      && AreGroups(Lookup(Object(claims), ["groups"]), ["a-ro"])
      && AreGroups(Lookup(Object(claims), ["realm_access", "roles"]), [])
  {
    var claims: map<string, Json> := map["groups" := Str("a-ro")];
    LookupOne(Object(claims), "groups");
    LookupTwo(Object(claims), "realm_access", "roles");
  }

  lemma {:induction false} LookupOne(v: Json, name: string)
    ensures Lookup(v, [name]) == Field(v, name)
  {
  }

  lemma {:induction false} LookupTwo(v: Json, a: string, b: string)
    ensures Lookup(v, [a, b]) == (if Field(v, a).Some? then Field(Field(v, a).value, b) else None)
  {
    if Field(v, a).Some? {
      assert [a, b][1..] == [b];
      LookupOne(Field(v, a).value, b);
    }
  }

  // ---------- reading claims, value by value ----------

  /** The strings of an array, in order; any other value adds nothing. */
  lemma {:induction false} TextsIs(before: seq<Json>, v: Json, after: seq<Json>)
    ensures Texts(before + [v] + after)
         == Texts(before) + (match v case Str(text) => [text] case _ => []) + Texts(after)
    ensures Texts([]) == []
  {
    TextsSplits(before + [v], after);
    assert (before + [v])[..|before|] == before;
  }

  lemma {:induction false} TextsSplits(a: seq<Json>, b: seq<Json>)
    ensures Texts(a + b) == Texts(a) + Texts(b)
  {
    if b == [] {
      assert a + b == a;
    } else {
      var n := |b| - 1;
      TextsSplits(a, b[..n]);
      assert (a + b)[..|a| + n] == a + b[..n];
    }
  }

  /** A path goes through objects only, one name at a time, to any depth. */
  lemma {:induction false} LookupIs(v: Json, name: string, rest: seq<string>)
    ensures Lookup(v, []) == Some(v)
    ensures Lookup(v, [name] + rest)
         == match v
            case Object(fields) => if name in fields then Lookup(fields[name], rest) else None
            case _ => None
  {
    assert ([name] + rest)[1..] == rest;
  }

  /** Looking a path up is looking its parts up one after the other. */
  lemma {:induction false} LookupJoins(v: Json, a: seq<string>, b: seq<string>)
    ensures Lookup(v, a + b) == (if Lookup(v, a).Some? then Lookup(Lookup(v, a).value, b) else None)
  {
    if a == [] {
      assert a + b == b;
    } else {
      assert (a + b)[1..] == a[1..] + b;
      if Field(v, a[0]).Some? {
        LookupJoins(Field(v, a[0]).value, a[1..], b);
      }
    }
  }
}
