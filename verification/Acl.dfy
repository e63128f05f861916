/** Group names, the per-request decision, and the merged permission table. */
module Acl {
  import opened Prelude
  import opened Text

  datatype Grants = Grants(read: bool, write: bool, delete: bool)
  {
    /** The union of two grants. */
    function Or(g: Grants): Grants {
      Grants(read || g.read, write || g.write, delete || g.delete)
    }
  }

  datatype Permission = Permission(name: string, grants: Grants)

  const NONE := Grants(false, false, false)
  const WILDCARD := "*"
  const VALID_POLICIES: map<string, Grants> := map[
    "ro" := Grants(true, false, false),
    "rw" := Grants(true, true, true),
    "wo" := Grants(false, true, false)
  ]

  /** A group names a bucket and a policy: `<bucket>-<policy>` after any leading slashes. */
  function ParseGroup(group: string): (r: Option<(string, string)>)
    ensures r.Some? ==> r.value.0 != "" && r.value.1 in VALID_POLICIES
  {
    var g := TrimLeft(group, '/');
    match LastIndexOf(g, '-')
    case None => None
    case Some(k) =>
      var bucket, policy := g[..k], g[k + 1..];
      if policy !in VALID_POLICIES || bucket == "" then None else Some((bucket, policy))
  }

  predicate MethodGranted(g: Grants, m: string) {
    if m == "GET" || m == "HEAD" || m == "OPTIONS" then g.read
    else if m == "PUT" || m == "POST" then g.write
    else if m == "DELETE" then g.delete
    else false
  }

  /** The group gives `policy` on exactly `bucket`. */
  predicate Gives(group: string, bucket: string, policy: string) {
    ParseGroup(group) == Some((bucket, policy))
  }

  // ---------- parsing ----------

  lemma {:induction false} TrimLeftFixed(s: string, c: char)
    ensures TrimLeft(s, c) != "" ==> TrimLeft(s, c)[0] != c
    ensures s == "" || s[0] != c ==> TrimLeft(s, c) == s
    decreases |s|
  {
    if s != "" && s[0] == c {
      TrimLeftFixed(s[1..], c);
    }
  }

  lemma {:induction false} PoliciesHaveNoHyphen(p: string)
    requires p in VALID_POLICIES
    ensures '-' !in p && p != ""
  {
  }

  lemma {:induction false} LastHyphen(bucket: string, policy: string)
    requires '-' !in policy
    ensures LastIndexOf(bucket + "-" + policy, '-') == Some(|bucket|)
    decreases |policy|
  {
    var g := bucket + "-" + policy;
    var n := |policy| - 1;
    if policy != "" {
      assert g[|g| - 1] == policy[n];
      assert g[..|g| - 1] == bucket + "-" + policy[..n];
      LastHyphen(bucket, policy[..n]);
    }
  }

  /** Parsing yields a bucket and policy exactly when the name, without its leading
      slashes, prints as `bucket-policy` with a nonempty bucket and a known policy. */
  lemma {:induction false} ParseGroupIff(group: string, bucket: string, policy: string)
    ensures Gives(group, bucket, policy)
       <==> bucket != "" && policy in VALID_POLICIES && TrimLeft(group, '/') == bucket + "-" + policy
  {
    var g := TrimLeft(group, '/');
    if bucket != "" && policy in VALID_POLICIES && g == bucket + "-" + policy {
      PoliciesHaveNoHyphen(policy);
      LastHyphen(bucket, policy);
      assert g[..|bucket|] == bucket && g[|bucket| + 1..] == policy;
    }
    if Gives(group, bucket, policy) {
      var k := LastIndexOf(g, '-').value;
      assert g == g[..k] + [g[k]] + g[k + 1..];
    }
  }

  /** Printing a group and parsing it back, whatever slashes the provider puts in front. */
  lemma {:induction false} ParsePrinted(slashes: nat, bucket: string, policy: string)
    requires bucket != "" && bucket[0] != '/' && policy in VALID_POLICIES
    ensures Gives(seq(slashes, _ => '/') + bucket + "-" + policy, bucket, policy)
  {
    var printed := bucket + "-" + policy;
    var s := seq(slashes, _ => '/');
    assert s + bucket + "-" + policy == s + printed;
    TrimLeftSlashes(slashes, printed);
    ParseGroupIff(s + printed, bucket, policy);
  }

  lemma {:induction false} TrimLeftSlashes(n: nat, s: string)
    requires s != "" && s[0] != '/'
    ensures TrimLeft(seq(n, _ => '/') + s, '/') == s
  {
    if n == 0 {
      assert seq(0, _ => '/') + s == s;
    } else {
      TrimLeftSlashes(n - 1, s);
      assert (seq(n, _ => '/') + s)[1..] == seq(n - 1, _ => '/') + s;
    }
  }

  // ---------- the decision ----------

  /** Some group gives a policy that allows the method, on this bucket or on all. */
  predicate Granted(groups: seq<string>, bucket: string, m: string) {
    exists i :: 0 <= i < |groups| && Allows(groups[i], bucket, m)
  }

  predicate Allows(group: string, bucket: string, m: string) {
    match ParseGroup(group)
    case None => false
    case Some((b, p)) => (b == bucket || b == WILDCARD) && MethodGranted(VALID_POLICIES[p], m)
  }

  method CheckAccess(groups: seq<string>, bucket: string, m: string) returns (ok: bool)
    ensures ok <==> Granted(groups, bucket, m)
  {
    for i := 0 to |groups|
      invariant forall k :: 0 <= k < i ==> !Allows(groups[k], bucket, m)
    {
      var parsed := ParseGroup(groups[i]);
      if parsed.None? {
        continue;
      }
      var (groupBucket, policy) := parsed.value;
      if groupBucket != bucket && groupBucket != WILDCARD {
        continue;
      }
      if MethodGranted(VALID_POLICIES[policy], m) {
        return true;
      }
    }
    return false;
  }

  // ---------- the table ----------

  /** The union of the policies given on exactly this bucket name. */
  function Merged(groups: seq<string>, bucket: string): Grants {
    if groups == [] then NONE
    else
      var n := |groups| - 1;
      Merged(groups[..n], bucket).Or(GivenBy(groups[n], bucket))
  }

  function GivenBy(group: string, bucket: string): Grants {
    match ParseGroup(group)
    case None => NONE
    case Some((b, p)) => if b == bucket then VALID_POLICIES[p] else NONE
  }

  /** Some group names the bucket. */
  predicate Named(groups: seq<string>, bucket: string) {
    exists i :: 0 <= i < |groups| && Names(groups[i], bucket)
  }

  predicate Names(group: string, bucket: string) {
    ParseGroup(group).Some? && ParseGroup(group).value.0 == bucket
  }

  /** The rights an explicitly named bucket has in the table; the wildcard has none there. */
  function Explicit(groups: seq<string>, bucket: string): Grants {
    if bucket == WILDCARD then NONE else Merged(groups, bucket)
  }

  function NamesOf(table: seq<Permission>): seq<string> {
    seq(|table|, i requires 0 <= i < |table| => table[i].name)
  }

  ghost predicate IsTable(groups: seq<string>, table: seq<Permission>) {
    && StrictlySorted(NamesOf(table))
    && (forall b :: b in NamesOf(table) <==> b != WILDCARD && Named(groups, b))
    && (forall i :: 0 <= i < |table| ==> table[i].grants == Merged(groups, table[i].name))
  }

  method WildcardGrant(groups: seq<string>) returns (grants: Grants, found: bool)
    ensures grants == Merged(groups, WILDCARD)
    ensures found <==> Named(groups, WILDCARD)
  {
    hide ParseGroup;
    grants, found := NONE, false;
    for i := 0 to |groups|
      invariant grants == Merged(groups[..i], WILDCARD)
      invariant found <==> exists k :: 0 <= k < i && Names(groups[k], WILDCARD)
    {
      assert groups[..i + 1][..i] == groups[..i];
      var parsed := ParseGroup(groups[i]);
      if parsed.Some? && parsed.value.0 == WILDCARD {
        grants, found := grants.Or(VALID_POLICIES[parsed.value.1]), true;
        assert Names(groups[i], WILDCARD);
      }
    }
    assert groups[..|groups|] == groups;
  }

  lemma {:induction false} UnnamedHasNoGrants(groups: seq<string>, bucket: string)
    requires !Named(groups, bucket)
    ensures Merged(groups, bucket) == NONE
  {
    if groups != [] {
      var n := |groups| - 1;
      assert forall i :: 0 <= i < n ==> groups[..n][i] == groups[i];
      UnnamedHasNoGrants(groups[..n], bucket);
      assert !Names(groups[n], bucket);
    }
  }

  /** The map holds every named bucket with its merged rights. */
  ghost predicate Tabulates(groups: seq<string>, buckets: map<string, Grants>) {
    forall b ::
      && (b in buckets <==> b != WILDCARD && Named(groups, b))
      && (b in buckets ==> buckets[b] == Merged(groups, b))
  }

  lemma {:induction false} NamedStep(groups: seq<string>, group: string, b: string)
    ensures Named(groups + [group], b) <==> Named(groups, b) || Names(group, b)
    ensures Merged(groups + [group], b) == Merged(groups, b).Or(GivenBy(group, b))
  {
    var all := groups + [group];
    assert all[..|groups|] == groups;
    assert all[|groups|] == group && forall i :: 0 <= i < |groups| ==> all[i] == groups[i];
  }

  function WithGroup(buckets: map<string, Grants>, group: string): map<string, Grants> {
    match ParseGroup(group)
    case None => buckets
    case Some((b, p)) =>
      if b == WILDCARD then buckets
      else buckets[b := (if b in buckets then buckets[b] else NONE).Or(VALID_POLICIES[p])]
  }

  lemma {:induction false} TabulatesStep(groups: seq<string>, group: string, buckets: map<string, Grants>)
    requires Tabulates(groups, buckets)
    ensures Tabulates(groups + [group], WithGroup(buckets, group))
  {
    hide ParseGroup;
    hide Merged;
    forall b
      ensures b in WithGroup(buckets, group) <==> b != WILDCARD && Named(groups + [group], b)
      ensures b in WithGroup(buckets, group) ==> WithGroup(buckets, group)[b] == Merged(groups + [group], b)
    {
      NamedStep(groups, group, b);
      if !Named(groups, b) {
        UnnamedHasNoGrants(groups, b);
      }
    }
  }

  lemma {:induction false} TabulatedIsTable(groups: seq<string>, buckets: map<string, Grants>, table: seq<Permission>)
    requires Tabulates(groups, buckets)
    requires StrictlySorted(NamesOf(table)) && (forall b :: b in NamesOf(table) <==> b in buckets)
    requires forall i :: 0 <= i < |table| ==>
      table[i].name in buckets && table[i].grants == buckets[table[i].name]
    ensures IsTable(groups, table)
  {
    hide Merged, Named, StrictlySorted, NamesOf;
  }

  lemma {:induction false} NothingTabulated()
    ensures Tabulates([], map[])
  {
  }

  method EffectiveBuckets(groups: seq<string>) returns (table: seq<Permission>)
    ensures IsTable(groups, table)
  {
    hide ParseGroup, Merged, Tabulates, IsTable, StrictlySorted;
    var buckets: map<string, Grants> := map[];
    NothingTabulated();
    for i := 0 to |groups|
      invariant Tabulates(groups[..i], buckets)
    {
      TabulatesStep(groups[..i], groups[i], buckets);
      assert groups[..i] + [groups[i]] == groups[..i + 1];
      var parsed := ParseGroup(groups[i]);
      if parsed.None? || parsed.value.0 == WILDCARD {
        continue;
      }
      var (bucket, policy) := parsed.value;
      ghost var before := buckets;
      if bucket !in buckets {
        buckets := buckets[bucket := NONE];
      }
      buckets := buckets[bucket := buckets[bucket].Or(VALID_POLICIES[policy])];
      assert buckets == WithGroup(before, groups[i]);
    }
    assert groups[..|groups|] == groups;
    table := TableFrom(buckets);
    TabulatedIsTable(groups, buckets, table);
  }

  /** Reads a map out in an arbitrary order and sorts it by name. */
  method TableFrom(buckets: map<string, Grants>) returns (table: seq<Permission>)
    ensures StrictlySorted(NamesOf(table))
    ensures forall b :: b in NamesOf(table) <==> b in buckets
    ensures forall i :: 0 <= i < |table| ==> table[i].name in buckets && table[i].grants == buckets[table[i].name]
  {
    var names: seq<string> := [];
    var todo := buckets.Keys;
    while todo != {}
      invariant Distinct(names) && Elements(names) !! todo
      invariant Elements(names) + todo == buckets.Keys
    {
      var b :| b in todo;
      names, todo := names + [b], todo - {b};
    }
    var sorted := Sort(names);
    SortSpec(names);
    assert forall b :: b in sorted <==> b in Elements(sorted);
    table := seq(|sorted|, i requires 0 <= i < |sorted| && sorted[i] in buckets =>
      Permission(sorted[i], buckets[sorted[i]]));
    assert NamesOf(table) == sorted;
  }
}
