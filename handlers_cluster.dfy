/** The cluster update handler: the acceptance-policy whitelist rewrite, the
    certificate expiry, the task-history limit and the heartbeat period, applied in that
    order to the stored cluster's specification. The role formatter and the duration
    parser are foreign and given as functions. */
module HandlersCluster {
  import opened Common

  /** The node roles a policy can admit. */
  datatype NodeRole = WorkerRole | ManagerRole

  /** One role admission policy. Its hashed secret is not part of this model. */
  datatype Policy = Policy(role: NodeRole, autoaccept: bool)

  /** The request body. */
  datatype ClusterRequest = ClusterRequest(
    autoaccept: seq<string>,
    secret: seq<string>,
    taskHistory: int,
    certExpiry: string,
    heartbeatPeriod: string)

  /** The parts of a cluster specification the update writes. The heartbeat period is
      an unsigned 64-bit count of nanoseconds. */
  datatype ClusterSpecValue = ClusterSpecValue(
    policies: seq<Policy>,
    nodeCertExpiry: Option<int>,
    taskHistoryRetentionLimit: int,
    heartbeatPeriod: nat)

  datatype Cluster = Cluster(id: string, version: nat, spec: ClusterSpecValue)

  /** The foreign functions: swarmkit's role formatter (given "swarm-" and the role) and
      the duration parser, with its result in nanoseconds. */
  datatype ClusterEnv = ClusterEnv(formatRole: string -> Option<NodeRole>, parseDuration: string -> Result<int>)

  /** The roles of the policies, in order. */
  function Roles(ps: seq<Policy>): (r: seq<NodeRole>)
    ensures |r| == |ps| && forall i :: 0 <= i < |ps| ==> r[i] == ps[i].role
  {
    seq(|ps|, i requires 0 <= i < |ps| => ps[i].role)
  }

  /** Every policy with auto-acceptance switched off. */
  function Reset(ps: seq<Policy>): (r: seq<Policy>)
    ensures |r| == |ps| && forall i :: 0 <= i < |ps| ==> r[i] == ps[i].(autoaccept := false)
  {
    seq(|ps|, i requires 0 <= i < |ps| => ps[i].(autoaccept := false))
  }

  /** Every policy for `r` switched on, the others as they are. */
  function SetMatching(ps: seq<Policy>, r: NodeRole): (q: seq<Policy>)
    ensures |q| == |ps|
    ensures forall i :: 0 <= i < |ps| ==> q[i] == if ps[i].role == r then ps[i].(autoaccept := true) else ps[i]
  {
    seq(|ps|, i requires 0 <= i < |ps| => if ps[i].role == r then ps[i].(autoaccept := true) else ps[i])
  }

  /** Neither rewrite changes which roles the policies are for; after the reset no
      policy auto-accepts, and after switching on `r` a policy auto-accepts exactly
      when it did before or it is for `r`. */
  lemma PolicyRewrites(ps: seq<Policy>, r: NodeRole)
    ensures Roles(Reset(ps)) == Roles(ps) && Roles(SetMatching(ps, r)) == Roles(ps)
    ensures forall i :: 0 <= i < |ps| ==> !Reset(ps)[i].autoaccept
    ensures forall i :: 0 <= i < |ps| ==> (SetMatching(ps, r)[i].autoaccept <==> ps[i].autoaccept || ps[i].role == r)
  {
  }

  /** One whitelisted role: the matching policies are switched on; when there is none,
      a new auto-accepting policy is appended. */
  function Admit(ps: seq<Policy>, r: NodeRole): seq<Policy> {
    if r in Roles(ps) then SetMatching(ps, r) else ps + [Policy(r, true)]
  }

  /** The policies reached by the role loop and the error that stopped it, if any. */
  datatype Admitted = Admitted(policies: seq<Policy>, err: Option<Error>)

  /** The role loop: each role is formatted and admitted in turn; an unrecognized role
      stops the loop. */
  function AdmitAll(ps: seq<Policy>, roles: seq<string>, formatRole: string -> Option<NodeRole>): Admitted
    decreases |roles|
  {
    if roles == [] then Admitted(ps, None)
    else match formatRole("swarm-" + roles[0])
      case None => Admitted(ps, Some(UnrecognizedRole(roles[0])))
      case Some(r) => AdmitAll(Admit(ps, r), roles[1..], formatRole)
  }

  /** Every role of the whitelist is recognized by the formatter. */
  predicate Recognized(roles: seq<string>, formatRole: string -> Option<NodeRole>) {
    forall i :: 0 <= i < |roles| ==> formatRole("swarm-" + roles[i]).Some?
  }

  /** The formatted whitelist. */
  function Formatted(roles: seq<string>, formatRole: string -> Option<NodeRole>): (rs: seq<NodeRole>)
    requires Recognized(roles, formatRole)
    ensures |rs| == |roles| && forall i :: 0 <= i < |roles| ==> rs[i] == formatRole("swarm-" + roles[i]).value
  {
    if roles == [] then [] else [formatRole("swarm-" + roles[0]).value] + Formatted(roles[1..], formatRole)
  }

  /** The roles of `rs` not in `seen`, each once, in order of first appearance: the
      roles for which policies are appended. */
  function Fresh(seen: seq<NodeRole>, rs: seq<NodeRole>): seq<NodeRole>
    decreases |rs|
  {
    if rs == [] then []
    else if rs[0] in seen then Fresh(seen, rs[1..])
    else [rs[0]] + Fresh(seen + [rs[0]], rs[1..])
  }

  /** Fresh roles are new, pairwise distinct, drawn from `rs`, and together with `seen`
      they cover `rs`. */
  lemma {:induction false} FreshSpec(seen: seq<NodeRole>, rs: seq<NodeRole>)
    decreases |rs|
    ensures forall i :: 0 <= i < |Fresh(seen, rs)| ==> Fresh(seen, rs)[i] !in seen && Fresh(seen, rs)[i] in rs
    ensures forall i, j :: 0 <= i < j < |Fresh(seen, rs)| ==> Fresh(seen, rs)[i] != Fresh(seen, rs)[j]
    ensures forall r :: r in rs ==> r in seen || r in Fresh(seen, rs)
  {
    if rs != [] {
      if rs[0] in seen {
        FreshSpec(seen, rs[1..]);
      } else {
        FreshSpec(seen + [rs[0]], rs[1..]);
        var f := Fresh(seen, rs);
        var g := Fresh(seen + [rs[0]], rs[1..]);
        assert f == [rs[0]] + g;
        forall k | 0 <= k < |g| ensures g[k] !in seen && g[k] != rs[0] && g[k] in rs {
          assert g[k] !in seen + [rs[0]];
          assert g[k] in rs[1..];
        }
        forall i, j | 0 <= i < j < |f| ensures f[i] != f[j] {
          assert f[j] == g[j - 1];
        }
        forall i | 0 <= i < |f| ensures f[i] !in seen && f[i] in rs {
          if i > 0 {
            assert f[i] == g[i - 1];
          }
        }
        forall r | r in rs ensures r in seen || r in f {
          if r != rs[0] {
            assert r in rs[1..];
            assert r in seen + [rs[0]] || r in g;
          }
        }
      }
    }
  }

  /** One admission appends the role when it is new, and switches on exactly the
      policies of that role besides those already on. */
  lemma AdmitSpec(ps: seq<Policy>, r: NodeRole)
    ensures var q := Admit(ps, r);
      && Roles(q) == Roles(ps) + (if r in Roles(ps) then [] else [r])
      && forall i :: 0 <= i < |q| ==> (q[i].autoaccept <==> (i < |ps| && ps[i].autoaccept) || q[i].role == r)
  {
    var q := Admit(ps, r);
    assert Roles(q) == Roles(ps) + (if r in Roles(ps) then [] else [r]);
  }

  /** The role loop fails exactly when some role is unrecognized, and then it names the
      first such role. */
  lemma {:induction false} AdmitAllError(ps: seq<Policy>, roles: seq<string>, formatRole: string -> Option<NodeRole>)
    decreases |roles|
    ensures var a := AdmitAll(ps, roles, formatRole);
      && (a.err.None? <==> Recognized(roles, formatRole))
      && (a.err.Some? ==> exists j :: && 0 <= j < |roles| && formatRole("swarm-" + roles[j]).None?
                                      && a.err.value == UnrecognizedRole(roles[j])
                                      && Recognized(roles[..j], formatRole))
  {
    if roles != [] {
      var h := formatRole("swarm-" + roles[0]);
      if h.None? {
        assert Recognized(roles[..0], formatRole);
      } else {
        AdmitAllError(Admit(ps, h.value), roles[1..], formatRole);
        var a := AdmitAll(ps, roles, formatRole);
        if a.err.Some? {
          var j :| && 0 <= j < |roles[1..]| && formatRole("swarm-" + roles[1..][j]).None?
                   && a.err.value == UnrecognizedRole(roles[1..][j])
                   && Recognized(roles[1..][..j], formatRole);
          assert roles[1..][j] == roles[j + 1];
          var pre := roles[..j + 1];
          forall i | 0 <= i < |pre| ensures formatRole("swarm-" + pre[i]).Some? {
            if i > 0 {
              assert pre[i] == roles[1..][..j][i - 1];
            }
          }
        } else {
          forall i | 0 <= i < |roles| ensures formatRole("swarm-" + roles[i]).Some? {
            if i > 0 {
              assert roles[i] == roles[1..][i - 1];
            }
          }
        }
      }
    } else {
      assert Recognized(roles, formatRole);
    }
  }

  /** The rest of a recognized whitelist is recognized. */
  lemma RecognizedTail(roles: seq<string>, formatRole: string -> Option<NodeRole>)
    requires roles != [] && Recognized(roles, formatRole)
    ensures Recognized(roles[1..], formatRole)
    ensures Formatted(roles, formatRole) == [formatRole("swarm-" + roles[0]).value] + Formatted(roles[1..], formatRole)
  {
    forall i | 0 <= i < |roles[1..]| ensures formatRole("swarm-" + roles[1..][i]).Some? {
      assert roles[1..][i] == roles[i + 1];
    }
  }

  /** The role loop over roles already formatted. */
  function AdmitRoles(ps: seq<Policy>, rs: seq<NodeRole>): seq<Policy>
    decreases |rs|
  {
    if rs == [] then ps else AdmitRoles(Admit(ps, rs[0]), rs[1..])
  }

  /** A recognized whitelist runs the role loop to the end, over its formatted
      roles. */
  lemma {:induction false} AdmitAllFormatted(ps: seq<Policy>, roles: seq<string>, formatRole: string -> Option<NodeRole>)
    requires Recognized(roles, formatRole)
    decreases |roles|
    ensures AdmitAll(ps, roles, formatRole) == Admitted(AdmitRoles(ps, Formatted(roles, formatRole)), None)
  {
    if roles != [] {
      RecognizedTail(roles, formatRole);
      AdmitAllFormatted(Admit(ps, formatRole("swarm-" + roles[0]).value), roles[1..], formatRole);
    }
  }

  /** The role loop keeps the existing policies in place with their roles and appends
      one policy per new role in whitelist order, a repeated role once. */
  lemma {:induction false} AdmitRolesRoles(ps: seq<Policy>, rs: seq<NodeRole>)
    decreases |rs|
    ensures Roles(AdmitRoles(ps, rs)) == Roles(ps) + Fresh(Roles(ps), rs)
  {
    if rs != [] {
      var ps1 := Admit(ps, rs[0]);
      AdmitSpec(ps, rs[0]);
      AdmitRolesRoles(ps1, rs[1..]);
      if rs[0] in Roles(ps) {
        assert Roles(ps1) == Roles(ps);
        assert Fresh(Roles(ps), rs) == Fresh(Roles(ps), rs[1..]);
      } else {
        assert Roles(ps1) == Roles(ps) + [rs[0]];
        assert Fresh(Roles(ps), rs) == [rs[0]] + Fresh(Roles(ps) + [rs[0]], rs[1..]);
        assert Roles(ps) + [rs[0]] + Fresh(Roles(ps) + [rs[0]], rs[1..])
            == Roles(ps) + ([rs[0]] + Fresh(Roles(ps) + [rs[0]], rs[1..]));
      }
    }
  }

  /** After the role loop a policy is switched on exactly when it was on before or its
      role is among the roles admitted. */
  lemma {:induction false} AdmitRolesAccept(ps: seq<Policy>, rs: seq<NodeRole>)
    decreases |rs|
    ensures var q := AdmitRoles(ps, rs);
      && |ps| <= |q|
      && forall i :: 0 <= i < |q| ==> (q[i].autoaccept <==> (i < |ps| && ps[i].autoaccept) || q[i].role in rs)
  {
    if rs != [] {
      var ps1 := Admit(ps, rs[0]);
      AdmitSpec(ps, rs[0]);
      AdmitRolesAccept(ps1, rs[1..]);
      AdmitRolesRoles(ps1, rs[1..]);
      var q := AdmitRoles(ps, rs);
      assert |Roles(ps1)| == |ps1|;
      forall i | 0 <= i < |q|
        ensures q[i].autoaccept <==> (i < |ps| && ps[i].autoaccept) || q[i].role in rs
      {
        assert q[i].role in rs <==> q[i].role == rs[0] || q[i].role in rs[1..];
        if i < |ps1| {
          assert Roles(q)[i] == Roles(ps1)[i];
          assert q[i].role == ps1[i].role;
        } else {
          FreshSpec(Roles(ps1), rs[1..]);
          assert Roles(q)[i] == Fresh(Roles(ps1), rs[1..])[i - |ps1|];
        }
      }
    }
  }

  /** The whitelist rewrite: with a non-empty whitelist, every policy is switched off,
      then the roles are admitted in turn; an empty whitelist leaves the policies
      alone. */
  function WhitelistOf(ps: seq<Policy>, roles: seq<string>, formatRole: string -> Option<NodeRole>): Admitted {
    if roles == [] then Admitted(ps, None) else AdmitAll(Reset(ps), roles, formatRole)
  }

  /** After a successful rewrite with a non-empty whitelist, a policy auto-accepts
      exactly when its role is whitelisted, every whitelisted role has a policy, the
      existing policies keep their places and roles, and the appended ones are the new
      roles once each in whitelist order. An unrecognized role fails the rewrite,
      naming the first one. An empty whitelist changes nothing. */
  lemma WhitelistSpec(ps: seq<Policy>, roles: seq<string>, formatRole: string -> Option<NodeRole>)
    ensures roles == [] ==> WhitelistOf(ps, roles, formatRole) == Admitted(ps, None)
    ensures WhitelistOf(ps, roles, formatRole).err.None? <==> Recognized(roles, formatRole)
    ensures WhitelistOf(ps, roles, formatRole).err.Some? ==>
      exists j :: && 0 <= j < |roles| && formatRole("swarm-" + roles[j]).None?
                  && WhitelistOf(ps, roles, formatRole).err.value == UnrecognizedRole(roles[j])
                  && Recognized(roles[..j], formatRole)
    ensures roles != [] && Recognized(roles, formatRole) ==>
      var q := WhitelistOf(ps, roles, formatRole).policies;
      var rs := Formatted(roles, formatRole);
      && Roles(q) == Roles(ps) + Fresh(Roles(ps), rs)
      && (forall i :: 0 <= i < |q| ==> (q[i].autoaccept <==> q[i].role in rs))
      && (forall r :: r in rs ==> r in Roles(q))
  {
    if roles != [] {
      AdmitAllError(Reset(ps), roles, formatRole);
      if Recognized(roles, formatRole) {
        AdmitAllFormatted(Reset(ps), roles, formatRole);
        AdmitRolesRoles(Reset(ps), Formatted(roles, formatRole));
        AdmitRolesAccept(Reset(ps), Formatted(roles, formatRole));
        var rs := Formatted(roles, formatRole);
        var q := WhitelistOf(ps, roles, formatRole).policies;
        assert Roles(Reset(ps)) == Roles(ps);
        FreshSpec(Roles(ps), rs);
        forall r | r in rs ensures r in Roles(q) {
          if r in Roles(ps) {
            var i :| 0 <= i < |Roles(ps)| && Roles(ps)[i] == r;
            assert Roles(q)[i] == r;
          } else {
            var f := Fresh(Roles(ps), rs);
            var i :| 0 <= i < |f| && f[i] == r;
            assert Roles(q)[|ps| + i] == r;
          }
        }
      }
    }
  }

  /** Go's uint64 conversion of a signed 64-bit value: two's-complement wrap-around. */
  function ToUint64(d: int): nat {
    d % 0x1_0000_0000_0000_0000
  }

  /** Non-negative durations keep their value; negative ones wrap to the top of the
      unsigned range. */
  lemma ToUint64Spec(d: int)
    requires -0x8000_0000_0000_0000 <= d < 0x8000_0000_0000_0000
    ensures d >= 0 ==> ToUint64(d) == d
    ensures d < 0 ==> ToUint64(d) == d + 0x1_0000_0000_0000_0000 && ToUint64(d) >= 0x8000_0000_0000_0000
  {
  }

  /** The fields after the whitelist, in order: the certificate expiry when the raw
      string is longer than one byte, the task-history limit when positive, and the
      heartbeat period when the trimmed heartbeat string is longer than one byte.
      The heartbeat is parsed from the certificate-expiry string, not from its own. */
  function SettingsOf(ci: ClusterRequest, parse: string -> Result<int>, c: ClusterSpecValue): Result<ClusterSpecValue> {
    var a := if Utf8Len(ci.certExpiry) > 1 then
               match parse(ci.certExpiry)
               case Err(e) => Err(e)
               case Ok(d) => Ok(c.(nodeCertExpiry := Some(d)))
             else Ok(c);
    if a.Err? then a
    else
      var b := if ci.taskHistory > 0 then a.value.(taskHistoryRetentionLimit := ci.taskHistory) else a.value;
      if Utf8Len(TrimSpace(ci.heartbeatPeriod)) > 1 then
        match parse(ci.certExpiry)
        case Err(e) => Err(e)
        case Ok(d) => Ok(b.(heartbeatPeriod := ToUint64(d)))
      else Ok(b)
  }

  /** updateClusters as a function: the cluster get (its error passed on), the
      whitelist rewrite, then the remaining fields. */
  function UpdateClusterOf(clusterID: string, ci: ClusterRequest, env: ClusterEnv, getCluster: string -> Result<Cluster>): Result<Cluster> {
    match getCluster(clusterID)
    case Err(e) => Err(e)
    case Ok(cluster) =>
      var w := WhitelistOf(cluster.spec.policies, ci.autoaccept, env.formatRole);
      if w.err.Some? then Err(w.err.value)
      else match SettingsOf(ci, env.parseDuration, cluster.spec.(policies := w.policies))
        case Err(e) => Err(e)
        case Ok(spec) => Ok(cluster.(spec := spec))
  }

  /** The submitted cluster keeps the stored ID and version; the policies are the
      whitelist rewrite; the certificate expiry is the parsed certificate-expiry string
      when that is longer than one byte; the heartbeat period follows the
      certificate-expiry string too; the task-history limit changes only when a positive
      one is given; a get, whitelist or duration error is passed on, and the update
      succeeds otherwise; and with an empty request nothing changes. */
  lemma UpdateClusterSpec(clusterID: string, ci: ClusterRequest, env: ClusterEnv, getCluster: string -> Result<Cluster>)
    ensures var r := UpdateClusterOf(clusterID, ci, env, getCluster);
      && (getCluster(clusterID).Err? ==> r == Err(getCluster(clusterID).error))
      && (r.Ok? ==> && getCluster(clusterID).Ok?
                    && r.value.id == getCluster(clusterID).value.id
                    && r.value.version == getCluster(clusterID).value.version
                    && r.value.spec.policies == WhitelistOf(getCluster(clusterID).value.spec.policies, ci.autoaccept, env.formatRole).policies
                    && r.value.spec.taskHistoryRetentionLimit ==
                         (if ci.taskHistory > 0 then ci.taskHistory else getCluster(clusterID).value.spec.taskHistoryRetentionLimit)
                    && (Utf8Len(TrimSpace(ci.heartbeatPeriod)) > 1 ==>
                          env.parseDuration(ci.certExpiry).Ok? && r.value.spec.heartbeatPeriod == ToUint64(env.parseDuration(ci.certExpiry).value))
                    && (Utf8Len(TrimSpace(ci.heartbeatPeriod)) <= 1 ==>
                          r.value.spec.heartbeatPeriod == getCluster(clusterID).value.spec.heartbeatPeriod)
                    && (Utf8Len(ci.certExpiry) > 1 ==>
                          env.parseDuration(ci.certExpiry).Ok? && r.value.spec.nodeCertExpiry == Some(env.parseDuration(ci.certExpiry).value))
                    && (Utf8Len(ci.certExpiry) <= 1 ==>
                          r.value.spec.nodeCertExpiry == getCluster(clusterID).value.spec.nodeCertExpiry))
      // the whitelist error, then the duration error, is passed on; otherwise the update succeeds
      && (getCluster(clusterID).Ok? ==>
            var w := WhitelistOf(getCluster(clusterID).value.spec.policies, ci.autoaccept, env.formatRole);
            var parsed := Utf8Len(ci.certExpiry) > 1 || Utf8Len(TrimSpace(ci.heartbeatPeriod)) > 1;
            && (w.err.Some? ==> r == Err(w.err.value))
            && (w.err.None? && parsed && env.parseDuration(ci.certExpiry).Err? ==> r == Err(env.parseDuration(ci.certExpiry).error))
            && (w.err.None? && !(parsed && env.parseDuration(ci.certExpiry).Err?) ==> r.Ok?))
      && (getCluster(clusterID).Ok? && ci == ClusterRequest([], [], 0, "", "") ==> r == getCluster(clusterID))
  {
    if ci == ClusterRequest([], [], 0, "", "") {
      assert TrimSpace("") == [];
    }
  }

  /** The stored cluster's specification, changed in place by the handler. */
  class ClusterSpec {
    var policies: seq<Policy>
    var nodeCertExpiry: Option<int>
    var taskHistoryRetentionLimit: int
    var heartbeatPeriod: nat

    /** The specification this object currently holds. */
    function Value(): ClusterSpecValue
      reads this
    {
      ClusterSpecValue(policies, nodeCertExpiry, taskHistoryRetentionLimit, heartbeatPeriod)
    }

    constructor (v: ClusterSpecValue)
      ensures Value() == v
    {
      policies, nodeCertExpiry := v.policies, v.nodeCertExpiry;
      taskHistoryRetentionLimit, heartbeatPeriod := v.taskHistoryRetentionLimit, v.heartbeatPeriod;
    }
  }

  /** The scan for one role: every policy of that role is switched on in place; when
      none was found, a new auto-accepting policy is appended. */
  method AdmitInPlace(spec: ClusterSpec, r: NodeRole)
    modifies spec
    ensures spec.Value() == old(spec.Value()).(policies := Admit(old(spec.policies), r))
  {
    ghost var ps := spec.policies;
    var found := false;
    var j := 0;
    while j < |spec.policies|
      invariant 0 <= j <= |spec.policies| == |ps|
      invariant forall m :: 0 <= m < j ==> spec.policies[m] == SetMatching(ps, r)[m]
      invariant forall m :: j <= m < |ps| ==> spec.policies[m] == ps[m]
      invariant found <==> r in Roles(ps)[..j]
      invariant spec.Value() == old(spec.Value()).(policies := spec.policies)
    {
      assert Roles(ps)[..j + 1] == Roles(ps)[..j] + [ps[j].role];
      if spec.policies[j].role == r {
        spec.policies := spec.policies[j := spec.policies[j].(autoaccept := true)];
        found := true;
      }
      j := j + 1;
    }
    assert Roles(ps)[..j] == Roles(ps);
    assert spec.policies == SetMatching(ps, r);
    if !found {
      spec.policies := spec.policies + [Policy(r, true)];
    }
  }

  /** The first loop of the rewrite: every policy is switched off in place. */
  method ResetInPlace(spec: ClusterSpec)
    modifies spec
    ensures spec.Value() == old(spec.Value()).(policies := Reset(old(spec.policies)))
  {
    ghost var p0 := spec.policies;
    var i := 0;
    while i < |spec.policies|
      invariant 0 <= i <= |spec.policies| == |p0|
      invariant forall m :: 0 <= m < i ==> spec.policies[m] == p0[m].(autoaccept := false)
      invariant forall m :: i <= m < |p0| ==> spec.policies[m] == p0[m]
      invariant spec.Value() == old(spec.Value()).(policies := spec.policies)
    {
      spec.policies := spec.policies[i := spec.policies[i].(autoaccept := false)];
      i := i + 1;
    }
    assert spec.policies == Reset(p0);
  }

  /** The whitelist rewrite in place: with a non-empty whitelist, every policy is
      switched off, then each role is formatted and admitted, stopping at the first
      unrecognized one. */
  method ApplyWhitelist(spec: ClusterSpec, roles: seq<string>, formatRole: string -> Option<NodeRole>) returns (err: Option<Error>)
    modifies spec
    ensures var w := WhitelistOf(old(spec.policies), roles, formatRole);
      err == w.err && spec.Value() == old(spec.Value()).(policies := w.policies)
  {
    err := None;
    if |roles| == 0 {
      return;
    }
    ghost var p0 := spec.policies;
    ResetInPlace(spec);
    var k := 0;
    while k < |roles|
      invariant 0 <= k <= |roles|
      invariant AdmitAll(spec.policies, roles[k..], formatRole) == AdmitAll(Reset(p0), roles, formatRole)
      invariant spec.Value() == old(spec.Value()).(policies := spec.policies)
    {
      assert roles[k..][0] == roles[k] && roles[k..][1..] == roles[k + 1..];
      var apiRole := formatRole("swarm-" + roles[k]);
      if apiRole.None? {
        return Some(UnrecognizedRole(roles[k]));
      }
      AdmitInPlace(spec, apiRole.value);
      k := k + 1;
    }
  }

  /** updateClusters up to the submission: the cluster get, the whitelist rewrite, the
      certificate expiry, the task-history limit and the heartbeat period, each error
      returned at once. */
  method UpdateClusters(clusterID: string, ci: ClusterRequest, env: ClusterEnv, getCluster: string -> Result<Cluster>)
    returns (r: Result<Cluster>)
    ensures r == UpdateClusterOf(clusterID, ci, env, getCluster)
  {
    var g := getCluster(clusterID);
    if g.Err? {
      return Err(g.error);
    }
    var cluster := g.value;
    var spec := new ClusterSpec(cluster.spec);
    var err := ApplyWhitelist(spec, ci.autoaccept, env.formatRole);
    if err.Some? {
      return Err(err.value);
    }
    ghost var s1 := spec.Value();
    if Utf8Len(ci.certExpiry) > 1 {
      var d := env.parseDuration(ci.certExpiry);
      if d.Err? {
        return Err(d.error);
      }
      spec.nodeCertExpiry := Some(d.value);
    }
    if ci.taskHistory > 0 {
      spec.taskHistoryRetentionLimit := ci.taskHistory;
    }
    if Utf8Len(TrimSpace(ci.heartbeatPeriod)) > 1 {
      var d := env.parseDuration(ci.certExpiry);
      if d.Err? {
        return Err(d.error);
      }
      spec.heartbeatPeriod := ToUint64(d.value);
    }
    assert SettingsOf(ci, env.parseDuration, s1) == Ok(spec.Value());
    return Ok(cluster.(spec := spec.Value()));
  }
}
