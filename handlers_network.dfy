/** Network creation: the driver and IPAM (address management) options a request
    describes. For each subnet in order, the first gateway inside it and the first IP
    range whose network address is inside it are assigned to that subnet's
    configuration and removed from their candidate lists. The removal shifts the
    candidates in place, inside the request's own arrays, whose visible length does not
    change; so the last candidate, once matched, is still there for later subnets, and
    a removal elsewhere leaves the last candidate doubled. CIDR parsing (section 3.1 of
    RFC 4632, section 2.3 of RFC 4291), IP parsing and containment are given as
    functions. */
module HandlersNetwork {
  import opened Common

  newtype byte = x: int | 0 <= x < 256

  /** An IP network: its network address and mask, as Go's net.IPNet. */
  datatype IPNet = IPNet(ip: seq<byte>, mask: seq<byte>)

  /** The address functions of Go's net package that the builder uses. */
  datatype NetLib = NetLib(
    parseCIDR: string -> Option<IPNet>,
    parseIP: string -> Option<seq<byte>>,
    contains: (IPNet, seq<byte>) -> bool)

  datatype Family = IPv4 | IPv6

  /** One subnet's address configuration; an unassigned gateway or range is "". */
  datatype IPAMConfig = IPAMConfig(family: Family, subnet: string, gateway: string, range: string)

  /** A driver: its name and options (None for a nil option map). */
  datatype Driver = Driver(name: string, options: Option<map<string, string>>)

  datatype IPAMOptions = IPAMOptions(driver: Option<Driver>, configs: seq<IPAMConfig>)

  /** The network specification submitted to the control plane. */
  datatype NetworkSpec = NetworkSpec(name: string, driverConfig: Option<Driver>, ipam: Option<IPAMOptions>)

  /** The four-byte form of an address, as Go's To4: a four-byte address itself, or the
      last four bytes of an IPv4-mapped sixteen-byte address. */
  function To4(ip: seq<byte>): (r: Option<seq<byte>>)
    ensures r.Some? ==> |r.value| == 4
    ensures |ip| == 4 ==> r == Some(ip)
    ensures |ip| != 4 && |ip| != 16 ==> r == None
    ensures |ip| == 16 ==> (r.Some? <==> ip[..12] == [0, 0, 0, 0, 0, 0, 0, 0, 0, 0, 255, 255])
    ensures |ip| == 16 && r.Some? ==> r.value == ip[12..]
  {
    if |ip| == 4 then Some(ip)
    else if |ip| == 16 && (forall i :: 0 <= i < 10 ==> ip[i] == 0) && ip[10] == 255 && ip[11] == 255 then Some(ip[12..])
    else None
  }

  /** A subnet is IPv4 exactly when its network address has a four-byte form. */
  function FamilyOf(n: IPNet): Family {
    if To4(n.ip).Some? then IPv4 else IPv6
  }

  /** A gateway candidate matches when it parses as an IP inside the subnet; a
      candidate that does not parse never matches (and is no error). */
  predicate GatewayIn(lib: NetLib, n: IPNet, g: string) {
    match lib.parseIP(g)
    case None => false
    case Some(ip) => lib.contains(n, ip)
  }

  /** The index of the first gateway candidate from `from` on that matches `n`. */
  function FirstGateway(lib: NetLib, n: IPNet, gs: seq<string>, from: nat): (r: Option<nat>)
    decreases |gs| - from
    ensures r.None? ==> forall j :: from <= j < |gs| ==> !GatewayIn(lib, n, gs[j])
    ensures r.Some? ==> && from <= r.value < |gs| && GatewayIn(lib, n, gs[r.value])
                        && forall j :: from <= j < r.value ==> !GatewayIn(lib, n, gs[j])
  {
    if from >= |gs| then None
    else if GatewayIn(lib, n, gs[from]) then Some(from)
    else FirstGateway(lib, n, gs, from + 1)
  }

  /** A range candidate passes over when it parses and its network address is not
      inside `n`. */
  predicate RangeMissed(lib: NetLib, n: IPNet, r: string) {
    lib.parseCIDR(r).Some? && !lib.contains(n, lib.parseCIDR(r).value.ip)
  }

  /** The index of the first range candidate from `from` on whose network address lies
      inside `n`; a candidate that does not parse, met before any match, is an error,
      and candidates after the match are not looked at. */
  function FirstRange(lib: NetLib, n: IPNet, rs: seq<string>, from: nat): (r: Result<Option<nat>>)
    decreases |rs| - from
    ensures r == Ok(None) ==> forall j :: from <= j < |rs| ==> RangeMissed(lib, n, rs[j])
    ensures r.Ok? && r.value.Some? ==>
      && from <= r.value.value < |rs|
      && lib.parseCIDR(rs[r.value.value]).Some? && lib.contains(n, lib.parseCIDR(rs[r.value.value]).value.ip)
      && forall j :: from <= j < r.value.value ==> RangeMissed(lib, n, rs[j])
    ensures r.Err? ==> exists j :: && from <= j < |rs| && lib.parseCIDR(rs[j]).None? && r.error == InvalidCIDR(rs[j])
                                   && forall k :: from <= k < j ==> RangeMissed(lib, n, rs[k])
  {
    if from >= |rs| then Ok(None)
    else match lib.parseCIDR(rs[from])
      case None => Err(InvalidCIDR(rs[from]))
      case Some(rn) => if lib.contains(n, rn.ip) then Ok(Some(from)) else FirstRange(lib, n, rs, from + 1)
  }

  /** What `append(s[:i], s[i+1:]...)` leaves in the array behind a slice `s` of fixed
      length: the entries after `i` move down one place and the last entry stays where
      it was. */
  function ShiftOut(s: seq<string>, i: nat): (r: seq<string>)
    requires i < |s|
    ensures |r| == |s|
    ensures forall j :: 0 <= j < i ==> r[j] == s[j]
    ensures forall j :: i <= j < |s| - 1 ==> r[j] == s[j + 1]
    ensures r[|s| - 1] == s[|s| - 1]
  {
    s[..i] + s[i + 1..] + [s[|s| - 1]]
  }

  /** The state of the build between subnets: the configurations so far, the
      candidate arrays as they now read, and the error that stopped the build, if
      any. */
  datatype Scan = Scan(configs: seq<IPAMConfig>, gateways: seq<string>, ranges: seq<string>, err: Option<Error>)

  /** One subnet: parse it (failing before anything is touched), take the first
      matching gateway out of the gateways, then scan the ranges (a malformed range
      fails, after the gateway removal), take the first matching range out, and add
      the configuration. */
  function SubnetStep(lib: NetLib, s: string, st: Scan): (r: Scan)
    ensures lib.parseCIDR(s).None? ==> r == st.(err := Some(InvalidCIDR(s)))
    ensures lib.parseCIDR(s).Some? ==>
      var n := lib.parseCIDR(s).value;
      var gi, ri := FirstGateway(lib, n, st.gateways, 0), FirstRange(lib, n, st.ranges, 0);
      && r.gateways == (if gi.Some? then ShiftOut(st.gateways, gi.value) else st.gateways)
      && (ri.Err? ==> r.err == Some(ri.error) && r.configs == st.configs && r.ranges == st.ranges)
      && (ri.Ok? ==> && r.err.None?
                     && r.ranges == (if ri.value.Some? then ShiftOut(st.ranges, ri.value.value) else st.ranges)
                     && r.configs == st.configs + [IPAMConfig(FamilyOf(n), s,
                                                              if gi.Some? then st.gateways[gi.value] else "",
                                                              if ri.value.Some? then st.ranges[ri.value.value] else "")])
  {
    match lib.parseCIDR(s)
    case None => st.(err := Some(InvalidCIDR(s)))
    case Some(n) =>
      var gi := FirstGateway(lib, n, st.gateways, 0);
      var gateway := if gi.Some? then st.gateways[gi.value] else "";
      var gateways := if gi.Some? then ShiftOut(st.gateways, gi.value) else st.gateways;
      match FirstRange(lib, n, st.ranges, 0)
      case Err(e) => st.(gateways := gateways, err := Some(e))
      case Ok(ri) =>
        var range := if ri.Some? then st.ranges[ri.value] else "";
        var ranges := if ri.Some? then ShiftOut(st.ranges, ri.value) else st.ranges;
        Scan(st.configs + [IPAMConfig(FamilyOf(n), s, gateway, range)], gateways, ranges, None)
  }

  /** The subnets in order, from `st`; the first error stops the build. */
  function Build(lib: NetLib, subnets: seq<string>, st: Scan): Scan
    decreases |subnets|
  {
    if subnets == [] then st
    else
      var next := SubnetStep(lib, subnets[0], st);
      if next.err.Some? then next else Build(lib, subnets[1..], next)
  }

  /** The IPAM driver a request names: one whose trimmed name is longer than one
      byte (UTF-8). */
  function IPAMDriverOf(ipamDriver: string): Option<Driver> {
    if Utf8Len(TrimSpace(ipamDriver)) > 1 then Some(Driver(ipamDriver, None)) else None
  }

  /** processIPAMOptions as a function of the request's IPAM driver, subnets and the
      initial gateway and range candidates. */
  function IPAMOf(lib: NetLib, ipamDriver: string, subnets: seq<string>, gws: seq<string>, rgs: seq<string>): Result<Option<IPAMOptions>> {
    var driver := IPAMDriverOf(ipamDriver);
    if subnets == [] then Ok(if driver.Some? then Some(IPAMOptions(driver, [])) else None)
    else
      var b := Build(lib, subnets, Scan([], gws, rgs, None));
      if b.err.Some? then Err(b.err.value) else Ok(Some(IPAMOptions(driver, b.configs)))
  }

  /** The build adds one configuration per subnet, in order, each naming its subnet as
      given and the family of its network address; it keeps the earlier
      configurations and the length of both candidate arrays; and it stops with an
      error before the end exactly when it fails. */
  lemma {:induction false} BuildConfigs(lib: NetLib, subnets: seq<string>, st: Scan)
    requires st.err.None?
    ensures var r := Build(lib, subnets, st);
      && |st.configs| <= |r.configs| <= |st.configs| + |subnets|
      && r.configs[..|st.configs|] == st.configs
      && |r.gateways| == |st.gateways| && |r.ranges| == |st.ranges|
      && (forall k :: |st.configs| <= k < |r.configs| ==>
            && r.configs[k].subnet == subnets[k - |st.configs|]
            && lib.parseCIDR(subnets[k - |st.configs|]).Some?
            && r.configs[k].family == FamilyOf(lib.parseCIDR(subnets[k - |st.configs|]).value))
      && (r.err.None? <==> |r.configs| == |st.configs| + |subnets|)
  {
    if subnets != [] {
      var next := SubnetStep(lib, subnets[0], st);
      if next.err.None? {
        BuildConfigs(lib, subnets[1..], next);
        var r := Build(lib, subnets[1..], next);
        assert r.configs[..|st.configs|] == next.configs[..|st.configs|];
        assert r.configs[|st.configs|] == next.configs[|st.configs|];
        forall k | |st.configs| < k < |r.configs|
          ensures r.configs[k].subnet == subnets[k - |st.configs|]
        {
          assert subnets[k - |st.configs|] == subnets[1..][k - |next.configs|];
        }
      }
    }
  }

  /** One configuration per subnet, in input order, each naming its subnet as given;
      a subnet that does not parse as CIDR fails the whole build; with no subnets the
      result is the IPAM driver alone, or nothing when there is none; with subnets but
      no driver, the configurations come without a driver. */
  lemma IPAMOfSpec(lib: NetLib, ipamDriver: string, subnets: seq<string>, gws: seq<string>, rgs: seq<string>)
    ensures var r := IPAMOf(lib, ipamDriver, subnets, gws, rgs);
      && (subnets == [] ==> r == Ok(if Utf8Len(TrimSpace(ipamDriver)) > 1 then Some(IPAMOptions(Some(Driver(ipamDriver, None)), [])) else None))
      && (subnets != [] && r.Ok? ==>
            && r.value.Some? && r.value.value.driver == IPAMDriverOf(ipamDriver)
            && |r.value.value.configs| == |subnets|
            && forall k :: 0 <= k < |subnets| ==>
                 && r.value.value.configs[k].subnet == subnets[k]
                 && lib.parseCIDR(subnets[k]).Some?
                 && r.value.value.configs[k].family == FamilyOf(lib.parseCIDR(subnets[k]).value))
      && ((exists k :: 0 <= k < |subnets| && lib.parseCIDR(subnets[k]).None?) ==> r.Err?)
  {
    if subnets != [] {
      var st := Scan([], gws, rgs, None);
      BuildConfigs(lib, subnets, st);
      var b := Build(lib, subnets, st);
      if b.err.None? {
        forall k | 0 <= k < |subnets|
          ensures b.configs[k].subnet == subnets[k] && lib.parseCIDR(subnets[k]).Some?
        {
          assert |st.configs| <= k < |b.configs|;
        }
      }
    }
  }

  /** The last candidate, once matched and removed, is still visible: the removal
      leaves the array as it was. */
  lemma ShiftOutLast(s: seq<string>)
    requires s != []
    ensures ShiftOut(s, |s| - 1) == s
  {
    assert s[..|s| - 1] + s[|s|..] + [s[|s| - 1]] == s;
  }

  /** So a single gateway candidate matching a subnet given twice is assigned to both
      configurations, not consumed by the first. */
  lemma LastGatewayReused(lib: NetLib, s: string, g: string)
    requires lib.parseCIDR(s).Some? && GatewayIn(lib, lib.parseCIDR(s).value, g)
    ensures var r := Build(lib, [s, s], Scan([], [g], [], None));
      && r.err.None? && |r.configs| == 2
      && r.configs[0].gateway == g && r.configs[1].gateway == g
      && r.gateways == [g]
  {
    var n := lib.parseCIDR(s).value;
    assert FirstGateway(lib, n, [g], 0) == Some(0);
    ShiftOutLast([g]);
    var st1 := SubnetStep(lib, s, Scan([], [g], [], None));
    assert st1.gateways == [g] && st1.err.None?;
    assert [s, s][1..] == [s];
    var st2 := SubnetStep(lib, s, st1);
    assert Build(lib, [s, s], Scan([], [g], [], None)) == Build(lib, [s], st1) == st2;
  }

  /** createNetworks as a function of the decoded request: a blank name is refused;
      the network driver, when the request names one whose trimmed name is longer
      than one byte, is named after the network itself and carries the options only
      when there are some; then the IPAM options. */
  function NetworkSpecOf(lib: NetLib, name: string, driver: string, opts: map<string, string>,
                         ipamDriver: string, subnets: seq<string>, gws: seq<string>, rgs: seq<string>): Result<NetworkSpec>
  {
    if Blank(name) then Err(NameRequired)
    else
      var d := if Utf8Len(TrimSpace(driver)) > 1 then Some(Driver(name, if |opts| > 0 then Some(opts) else None)) else None;
      match IPAMOf(lib, ipamDriver, subnets, gws, rgs)
      case Err(e) => Err(e)
      case Ok(ipam) => Ok(NetworkSpec(name, d, ipam))
  }

  /** A blank name is refused before anything else; otherwise the specification is
      named as requested, its driver (when there is one) bears the network's name
      rather than the driver's, options appear exactly when the request has some, and
      the IPAM part is the one IPAMOf describes, its error included. */
  lemma NetworkSpecOfSpec(lib: NetLib, name: string, driver: string, opts: map<string, string>,
                          ipamDriver: string, subnets: seq<string>, gws: seq<string>, rgs: seq<string>)
    ensures var r := NetworkSpecOf(lib, name, driver, opts, ipamDriver, subnets, gws, rgs);
      var ipam := IPAMOf(lib, ipamDriver, subnets, gws, rgs);
      && (r == Err(NameRequired) <==> Blank(name))
      && (!Blank(name) && ipam.Err? ==> r == Err(ipam.error))
      && (r.Ok? ==> && r.value.name == name && ipam.Ok? && r.value.ipam == ipam.value
                    && (r.value.driverConfig.Some? <==> Utf8Len(TrimSpace(driver)) > 1)
                    && (r.value.driverConfig.Some? ==>
                          && r.value.driverConfig.value.name == name
                          && (r.value.driverConfig.value.options.Some? <==> |opts| > 0)
                          && (r.value.driverConfig.value.options.Some? ==> r.value.driverConfig.value.options.value == opts)))
  {
    if !Blank(name) && IPAMOf(lib, ipamDriver, subnets, gws, rgs).Err? {
      assert IPAMOf(lib, ipamDriver, subnets, gws, rgs).error != NameRequired by {
        IPAMError(lib, ipamDriver, subnets, gws, rgs);
      }
    }
  }

  /** IPAM building fails only with a CIDR error. */
  lemma IPAMError(lib: NetLib, ipamDriver: string, subnets: seq<string>, gws: seq<string>, rgs: seq<string>)
    ensures IPAMOf(lib, ipamDriver, subnets, gws, rgs).Err? ==> IPAMOf(lib, ipamDriver, subnets, gws, rgs).error.InvalidCIDR?
  {
    if subnets != [] {
      BuildError(lib, subnets, Scan([], gws, rgs, None));
    }
  }

  /** A build that fails reports a CIDR error. */
  lemma {:induction false} BuildError(lib: NetLib, subnets: seq<string>, st: Scan)
    requires st.err.None?
    ensures var r := Build(lib, subnets, st); r.err.Some? ==> r.err.value.InvalidCIDR?
  {
    if subnets != [] {
      var next := SubnetStep(lib, subnets[0], st);
      if next.err.None? {
        BuildError(lib, subnets[1..], next);
      }
    }
  }

  /** The decoded request body. The source never reassigns its fields, but the
      gateway and range removals shift entries inside the two arrays. */
  class NetworkInfo {
    const name: string
    const driver: string
    const opts: map<string, string>
    const ipamDriver: string
    const subnet: seq<string>
    const gateway: array<string>
    const ipRange: array<string>

    /** A freshly decoded request: two distinct candidate arrays. */
    constructor (name: string, driver: string, opts: map<string, string>, ipamDriver: string,
                 subnet: seq<string>, gateway: seq<string>, ipRange: seq<string>)
      ensures this.name == name && this.driver == driver && this.opts == opts
      ensures this.ipamDriver == ipamDriver && this.subnet == subnet
      ensures this.gateway[..] == gateway && this.ipRange[..] == ipRange
      ensures fresh(this.gateway) && fresh(this.ipRange) && this.gateway != this.ipRange
    {
      this.name, this.driver, this.opts := name, driver, opts;
      this.ipamDriver, this.subnet := ipamDriver, subnet;
      this.gateway := new string[|gateway|](i requires 0 <= i < |gateway| => gateway[i]);
      this.ipRange := new string[|ipRange|](i requires 0 <= i < |ipRange| => ipRange[i]);
    }
  }

  /** `append(a[:i], a[i+1:]...)` on the array itself: the entries after `i` move
      down one place. */
  method ShiftOutInPlace(a: array<string>, i: nat)
    requires i < a.Length
    modifies a
    ensures a[..] == ShiftOut(old(a[..]), i)
  {
    ghost var s := a[..];
    var k := i;
    while k + 1 < a.Length
      invariant i <= k < a.Length
      invariant a[..k] == s[..i] + s[i + 1..k + 1]
      invariant a[k..] == s[k..]
    {
      a[k] := a[k + 1];
      assert a[..k + 1] == a[..k] + [s[k + 1]];
      k := k + 1;
    }
    assert a[..] == a[..k] + a[k..];
  }

  /** The gateway loop: the first candidate inside `n` is taken out of the array and
      returned; "" when none matches, with the array left alone. */
  method TakeGateway(a: array<string>, lib: NetLib, n: IPNet) returns (gateway: string)
    modifies a
    ensures var gi := FirstGateway(lib, n, old(a[..]), 0);
      && gateway == (if gi.Some? then old(a[..])[gi.value] else "")
      && a[..] == (if gi.Some? then ShiftOut(old(a[..]), gi.value) else old(a[..]))
  {
    var i := 0;
    while i < a.Length
      invariant 0 <= i <= a.Length
      invariant a[..] == old(a[..])
      invariant FirstGateway(lib, n, a[..], 0) == FirstGateway(lib, n, a[..], i)
    {
      var g := a[i];
      if GatewayIn(lib, n, g) {
        ShiftOutInPlace(a, i);
        return g;
      }
      i := i + 1;
    }
    return "";
  }

  /** The range loop: a candidate that does not parse as CIDR, met before a match,
      fails the loop; the first candidate whose network address is inside `n` is taken
      out of the array and returned; "" when none matches. */
  method TakeRange(a: array<string>, lib: NetLib, n: IPNet) returns (range: string, err: Option<Error>)
    modifies a
    ensures match FirstRange(lib, n, old(a[..]), 0)
      case Err(e) => err == Some(e) && a[..] == old(a[..])
      case Ok(ri) =>
        && err == None
        && range == (if ri.Some? then old(a[..])[ri.value] else "")
        && a[..] == (if ri.Some? then ShiftOut(old(a[..]), ri.value) else old(a[..]))
  {
    var i := 0;
    while i < a.Length
      invariant 0 <= i <= a.Length
      invariant a[..] == old(a[..])
      invariant FirstRange(lib, n, a[..], 0) == FirstRange(lib, n, a[..], i)
    {
      var r := a[i];
      var rn := lib.parseCIDR(r);
      if rn.None? {
        return "", Some(InvalidCIDR(r));
      }
      if lib.contains(n, rn.value.ip) {
        ShiftOutInPlace(a, i);
        return r, None;
      }
      i := i + 1;
    }
    return "", None;
  }

  /** processIPAMOptions: the IPAM driver, then one configuration per subnet, taking
      gateways and ranges out of the request's arrays as they are assigned. */
  method ProcessIPAMOptions(nw: NetworkInfo, lib: NetLib) returns (ipamOpts: Option<IPAMOptions>, err: Option<Error>)
    requires nw.gateway != nw.ipRange
    modifies nw.gateway, nw.ipRange
    ensures (if err.Some? then Err(err.value) else Ok(ipamOpts))
            == IPAMOf(lib, nw.ipamDriver, nw.subnet, old(nw.gateway[..]), old(nw.ipRange[..]))
    ensures err.Some? ==> ipamOpts == None
    ensures var b := Build(lib, nw.subnet, Scan([], old(nw.gateway[..]), old(nw.ipRange[..]), None));
      nw.gateway[..] == b.gateways && nw.ipRange[..] == b.ranges
  {
    ipamOpts, err := None, None;
    if Utf8Len(TrimSpace(nw.ipamDriver)) > 1 {
      ipamOpts := Some(IPAMOptions(Some(Driver(nw.ipamDriver, None)), []));
    }
    if |nw.subnet| == 0 {
      return;
    }
    ghost var st0 := Scan([], nw.gateway[..], nw.ipRange[..], None);
    var configs: seq<IPAMConfig> := [];
    var k := 0;
    while k < |nw.subnet|
      invariant 0 <= k <= |nw.subnet|
      invariant Build(lib, nw.subnet, st0) == Build(lib, nw.subnet[k..], Scan(configs, nw.gateway[..], nw.ipRange[..], None))
      invariant ipamOpts == (if Utf8Len(TrimSpace(nw.ipamDriver)) > 1 then Some(IPAMOptions(Some(Driver(nw.ipamDriver, None)), [])) else None)
    {
      var s := nw.subnet[k];
      ghost var st := Scan(configs, nw.gateway[..], nw.ipRange[..], None);
      assert nw.subnet[k..][0] == s && nw.subnet[k..][1..] == nw.subnet[k + 1..];
      var ipNet := lib.parseCIDR(s);
      if ipNet.None? {
        return None, Some(InvalidCIDR(s));
      }
      var family := if To4(ipNet.value.ip).Some? then IPv4 else IPv6;
      var gateway := TakeGateway(nw.gateway, lib, ipNet.value);
      var range, e := TakeRange(nw.ipRange, lib, ipNet.value);
      if e.Some? {
        return None, e;
      }
      configs := configs + [IPAMConfig(family, s, gateway, range)];
      assert SubnetStep(lib, s, st) == Scan(configs, nw.gateway[..], nw.ipRange[..], None);
      k := k + 1;
    }
    if ipamOpts.None? {
      ipamOpts := Some(IPAMOptions(None, []));
    }
    ipamOpts := Some(ipamOpts.value.(configs := configs));
  }

  /** createNetworks up to the submission: the name check, the network driver and the
      IPAM options; the specification it would submit, or the error it reports. */
  method CreateNetworks(nw: NetworkInfo, lib: NetLib) returns (r: Result<NetworkSpec>)
    requires nw.gateway != nw.ipRange
    modifies nw.gateway, nw.ipRange
    ensures r == NetworkSpecOf(lib, nw.name, nw.driver, nw.opts, nw.ipamDriver, nw.subnet, old(nw.gateway[..]), old(nw.ipRange[..]))
  {
    TrimSpaceEmptyIffBlank(nw.name);
    if |TrimSpace(nw.name)| == 0 {
      return Err(NameRequired);
    }
    var driver: Option<Driver> := None;
    if Utf8Len(TrimSpace(nw.driver)) > 1 {
      driver := Some(Driver(nw.name, None));
      if |nw.opts| > 0 {
        driver := Some(driver.value.(options := Some(nw.opts)));
      }
    }
    var ipamOpts, err := ProcessIPAMOptions(nw, lib);
    if err.Some? {
      return Err(err.value);
    }
    return Ok(NetworkSpec(nw.name, driver, ipamOpts));
  }
}
