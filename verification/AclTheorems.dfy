/** The decision, the table and the wildcard grant say the same thing. */
module AclTheorems {
  import opened Prelude
  import opened Text
  import opened Acl

  lemma {:induction false} MethodGrantedOr(g: Grants, h: Grants, m: string)
    ensures MethodGranted(g.Or(h), m) <==> MethodGranted(g, m) || MethodGranted(h, m)
  {
  }

  /** A merged grant allows a method exactly when one of its groups does. */
  lemma {:induction false} MergedAllows(groups: seq<string>, bucket: string, m: string)
    ensures MethodGranted(Merged(groups, bucket), m)
       <==> exists i :: 0 <= i < |groups| && MethodGranted(GivenBy(groups[i], bucket), m)
  {
    if groups != [] {
      var n := |groups| - 1;
      MergedAllows(groups[..n], bucket, m);
      MethodGrantedOr(Merged(groups[..n], bucket), GivenBy(groups[n], bucket), m);
      forall i | 0 <= i < n ensures groups[..n][i] == groups[i] {
      }
    }
  }

  lemma {:induction false} AllowsSplits(group: string, bucket: string, m: string)
    ensures Allows(group, bucket, m)
       <==> MethodGranted(GivenBy(group, bucket), m) || MethodGranted(GivenBy(group, WILDCARD), m)
  {
  }

  lemma {:induction false} GrantedSplits(groups: seq<string>, bucket: string, m: string)
    ensures Granted(groups, bucket, m)
       <==> MethodGranted(Merged(groups, bucket), m) || MethodGranted(Merged(groups, WILDCARD), m)
  {
    MergedAllows(groups, bucket, m);
    MergedAllows(groups, WILDCARD, m);
    forall i | 0 <= i < |groups|
      ensures Allows(groups[i], bucket, m)
         <==> MethodGranted(GivenBy(groups[i], bucket), m) || MethodGranted(GivenBy(groups[i], WILDCARD), m)
    {
      AllowsSplits(groups[i], bucket, m);
    }
  }

  /** The rights the table lists for a bucket. */
  function Listed(table: seq<Permission>, bucket: string): Grants {
    if table == [] then NONE
    else if table[0].name == bucket then table[0].grants
    else Listed(table[1..], bucket)
  }

  lemma {:induction false} ListedIn(table: seq<Permission>, bucket: string)
    ensures bucket !in NamesOf(table) ==> Listed(table, bucket) == NONE
    ensures bucket in NamesOf(table) ==>
      exists i :: 0 <= i < |table| && table[i].name == bucket && table[i].grants == Listed(table, bucket)
  {
    if table != [] && table[0].name == bucket {
      assert NamesOf(table)[0] == bucket;
    } else if table != [] {
      ListedIn(table[1..], bucket);
      assert NamesOf(table) == [table[0].name] + NamesOf(table[1..]);
      if bucket in NamesOf(table) {
        var rest := table[1..];
        var i :| 0 <= i < |rest| && rest[i].name == bucket && rest[i].grants == Listed(table, bucket);
        assert table[i + 1] == rest[i];
      }
    }
  }

  lemma {:induction false} TableLists(groups: seq<string>, table: seq<Permission>, bucket: string)
    requires IsTable(groups, table)
    ensures Listed(table, bucket) == Explicit(groups, bucket)
  {
    ListedIn(table, bucket);
    if bucket in NamesOf(table) {
      var i :| 0 <= i < |table| && table[i].name == bucket && table[i].grants == Listed(table, bucket);
      assert table[i].grants == Merged(groups, bucket);
    } else if bucket != WILDCARD {
      UnnamedHasNoGrants(groups, bucket);
    }
  }

  /** The per-request decision is the bucket's row in the table, or the wildcard grant. */
  lemma {:induction false} DecisionMatchesTable(
      groups: seq<string>, table: seq<Permission>, bucket: string, m: string)
    requires IsTable(groups, table)
    ensures Granted(groups, bucket, m)
       <==> MethodGranted(Listed(table, bucket), m) || MethodGranted(Merged(groups, WILDCARD), m)
  {
    TableLists(groups, table, bucket);
    GrantedSplits(groups, bucket, m);
  }

  /** More groups never take a right away; order and repetition never matter. */
  lemma {:induction false} DecisionMonotone(groups: seq<string>, more: seq<string>, bucket: string, m: string)
    requires Elements(groups) <= Elements(more)
    ensures Granted(groups, bucket, m) ==> Granted(more, bucket, m)
    ensures Elements(groups) == Elements(more) ==> (Granted(groups, bucket, m) <==> Granted(more, bucket, m))
  {
    if Granted(groups, bucket, m) {
      GrantedCarries(groups, more, bucket, m);
    }
    if Elements(groups) == Elements(more) && Granted(more, bucket, m) {
      GrantedCarries(more, groups, bucket, m);
    }
  }

  lemma {:induction false} GrantedCarries(groups: seq<string>, more: seq<string>, bucket: string, m: string)
    requires Elements(groups) <= Elements(more) && Granted(groups, bucket, m)
    ensures Granted(more, bucket, m)
  {
    var i :| 0 <= i < |groups| && Allows(groups[i], bucket, m);
    assert groups[i] in Elements(groups);
    assert groups[i] in more;
    var k :| 0 <= k < |more| && more[k] == groups[i];
  }

  lemma {:induction false} TailMembers(xs: seq<string>, b: string)
    requires StrictlySorted(xs) && xs != []
    ensures b in xs[1..] <==> b in xs && b != xs[0]
  {
    LessIrreflexive(xs[0]);
    assert xs == [xs[0]] + xs[1..];
    if b in xs[1..] {
      var i :| 0 <= i < |xs[1..]| && xs[1..][i] == b;
      assert Less(xs[0], xs[i + 1]);
    }
  }

  lemma {:induction false} SortedNamesUnique(xs: seq<string>, ys: seq<string>)
    requires StrictlySorted(xs) && StrictlySorted(ys)
    requires forall b :: b in xs <==> b in ys
    ensures xs == ys
    decreases |xs|
  {
    assert ys != [] ==> ys[0] in ys;
    if xs != [] {
      assert xs == [xs[0]] + xs[1..];
      assert xs[0] in ys;
      assert ys != [] && ys[0] in xs && ys == [ys[0]] + ys[1..];
      var j :| 0 <= j < |ys| && ys[j] == xs[0];
      var i :| 0 <= i < |xs| && xs[i] == ys[0];
      LessIrreflexive(xs[0]);
      if i > 0 && j > 0 {
        LessTransitive(xs[0], xs[i], ys[j]);
      }
      assert xs[0] == ys[0];
      forall b ensures b in xs[1..] <==> b in ys[1..] {
        TailMembers(xs, b);
        TailMembers(ys, b);
      }
      SortedNamesUnique(xs[1..], ys[1..]);
    }
  }

  /** The table depends only on the set of groups. */
  lemma {:induction false} TableUnique(
      groups: seq<string>, others: seq<string>, table: seq<Permission>, other: seq<Permission>)
    requires Elements(groups) == Elements(others)
    requires IsTable(groups, table) && IsTable(others, other)
    ensures table == other
  {
    forall b ensures Named(groups, b) <==> Named(others, b) {
      NamedCarries(groups, others, b);
      NamedCarries(others, groups, b);
    }
    SortedNamesUnique(NamesOf(table), NamesOf(other));
    forall i | 0 <= i < |table| ensures table[i] == other[i] {
      assert NamesOf(table)[i] == NamesOf(other)[i];
      MergedCarries(groups, others, table[i].name);
    }
  }

  lemma {:induction false} NamedCarries(groups: seq<string>, others: seq<string>, bucket: string)
    requires Elements(groups) <= Elements(others)
    ensures Named(groups, bucket) ==> Named(others, bucket)
  {
    if Named(groups, bucket) {
      var i :| 0 <= i < |groups| && Names(groups[i], bucket);
      assert groups[i] in Elements(groups);
      var k :| 0 <= k < |others| && others[k] == groups[i];
    }
  }

  lemma {:induction false} MergedCarries(groups: seq<string>, others: seq<string>, bucket: string)
    requires Elements(groups) == Elements(others)
    ensures Merged(groups, bucket) == Merged(others, bucket)
  {
    forall m ensures MethodGranted(Merged(groups, bucket), m) <==> MethodGranted(Merged(others, bucket), m) {
      MergedAllows(groups, bucket, m);
      MergedAllows(others, bucket, m);
      forall i | 0 <= i < |groups| ensures exists k :: 0 <= k < |others| && others[k] == groups[i] {
        assert groups[i] in Elements(groups);
      }
      forall i | 0 <= i < |others| ensures exists k :: 0 <= k < |groups| && groups[k] == others[i] {
        assert others[i] in Elements(others);
      }
    }
    SameMethodsSameGrants(Merged(groups, bucket), Merged(others, bucket));
  }

  lemma {:induction false} SameMethodsSameGrants(g: Grants, h: Grants)
    requires forall m :: MethodGranted(g, m) <==> MethodGranted(h, m)
    ensures g == h
  {
    assert MethodGranted(g, "GET") <==> MethodGranted(h, "GET");
    assert MethodGranted(g, "PUT") <==> MethodGranted(h, "PUT");
    assert MethodGranted(g, "DELETE") <==> MethodGranted(h, "DELETE");
  }

  // ---------- the decision in words ----------

  /** The group reads `bucket-policy` once its leading slashes are gone. */
  ghost predicate Reads(group: string, bucket: string, policy: string) {
    bucket != "" && TrimLeft(group, '/') == bucket + "-" + policy
  }

  ghost predicate PolicyAllows(policy: string, m: string) {
    || (m in {"GET", "HEAD", "OPTIONS"} && policy in {"ro", "rw"})
    || (m in {"PUT", "POST"} && policy in {"rw", "wo"})
    || (m == "DELETE" && policy == "rw")
  }

  lemma {:induction false} PolicyGrants(policy: string, m: string)
    ensures policy in VALID_POLICIES <==> policy in {"ro", "rw", "wo"}
    ensures PolicyAllows(policy, m) <==> policy in VALID_POLICIES && MethodGranted(VALID_POLICIES[policy], m)
  {
  }

  /** One group allows a method on a bucket exactly when it reads as that bucket or `*`, a
      hyphen, and a policy that covers the method; no other method is ever allowed. */
  lemma {:induction false} AllowsIff(group: string, bucket: string, m: string)
    ensures Allows(group, bucket, m)
       <==> exists b, p :: Reads(group, b, p) && (b == bucket || b == "*") && PolicyAllows(p, m)
  {
    hide ParseGroup, TrimLeft, MethodGranted, PolicyAllows;
    if Allows(group, bucket, m) {
      var (b, p) := ParseGroup(group).value;
      ParseGroupIff(group, b, p);
      PolicyGrants(p, m);
      assert Reads(group, b, p);
    }
    if b, p :| Reads(group, b, p) && (b == bucket || b == "*") && PolicyAllows(p, m) {
      PolicyGrants(p, m);
      ParseGroupIff(group, b, p);
    }
  }

  /** A caller is let through exactly when one of the groups says so. */
  lemma {:induction false} DecisionInWords(groups: seq<string>, bucket: string, m: string)
    ensures Granted(groups, bucket, m)
       <==> exists group, b, p ::
              group in groups && Reads(group, b, p) && (b == bucket || b == "*") && PolicyAllows(p, m)
  {
    hide Allows, PolicyAllows, Reads;
    if Granted(groups, bucket, m) {
      var i :| 0 <= i < |groups| && Allows(groups[i], bucket, m);
      AllowsIff(groups[i], bucket, m);
      var b, p :| Reads(groups[i], b, p) && (b == bucket || b == "*") && PolicyAllows(p, m);
      assert groups[i] in groups;
    }
    if group, b, p :|
      group in groups && Reads(group, b, p) && (b == bucket || b == "*") && PolicyAllows(p, m)
    {
      AllowsIff(group, bucket, m);
      var i :| 0 <= i < |groups| && groups[i] == group;
      assert Allows(groups[i], bucket, m);
    }
  }

  /** The table names a bucket exactly when some group reads as that bucket and a policy. */
  lemma {:induction false} NamedInWords(groups: seq<string>, bucket: string)
    ensures Named(groups, bucket)
       <==> exists group, p :: group in groups && Reads(group, bucket, p) && p in {"ro", "rw", "wo"}
  {
    hide ParseGroup, TrimLeft;
    if Named(groups, bucket) {
      var i :| 0 <= i < |groups| && Names(groups[i], bucket);
      var p := ParseGroup(groups[i]).value.1;
      ParseGroupIff(groups[i], bucket, p);
      PolicyGrants(p, "GET");
      assert groups[i] in groups && Reads(groups[i], bucket, p);
    }
    if group, p :| group in groups && Reads(group, bucket, p) && p in {"ro", "rw", "wo"} {
      PolicyGrants(p, "GET");
      ParseGroupIff(group, bucket, p);
      var i :| 0 <= i < |groups| && groups[i] == group;
      assert Names(groups[i], bucket);
    }
  }
}
