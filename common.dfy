/** Shared vocabulary: optional values, results carrying the system's error kinds,
    Go's strings.TrimSpace, and order-preserving filtering. */
module Common {

  datatype Option<+T> = None | Some(value: T) {
    function GetOr(default: T): T {
      match this
      case Some(v) => v
      case None => default
    }
  }

  /** The three entity kinds the resolver is used for. */
  datatype Kind = ServiceKind | NodeKind | NetworkKind

  /** Every error condition the modelled code reports. `Remote` stands for an error
      produced outside the model (the control plane or a foreign library) and passed on
      unchanged. */
  datatype Error =
    | ReplicasNeedReplicatedMode
    | InvalidCPU(cpu: string)
    | CPUPrecision(cpu: string)
    | InvalidRestartCondition(condition: string)
    | BindFormat(bind: string)
    | VolumeFormat(volume: string)
    | NotFound(kind: Kind, input: string)
    | Ambiguous(kind: Kind, input: string, matches: nat)
    | NameAndImageMandatory
    | ServiceIDMissing
    | NoChangesDetected
    | UnrecognizedRole(role: string)
    | NameRequired
    | InvalidCIDR(cidr: string)
    | AlreadyAccepted(node: string)
    | AlreadyActive(node: string)
    | Remote(message: string)

  datatype Result<+T> = Ok(value: T) | Err(error: Error)

  function KindName(k: Kind): string {
    match k
    case ServiceKind => "service"
    case NodeKind => "node"
    case NetworkKind => "network"
  }

  /** The decimal rendering of a count, as `%d` prints it. */
  function NatToString(n: nat): (r: string)
    ensures |r| > 0
  {
    if n < 10 then ["0123456789"[n]] else NatToString(n / 10) + ["0123456789"[n % 10]]
  }

  /** The message text of each error (Go's `%q` is rendered as plain double quotes). */
  function Message(e: Error): string {
    match e
    case ReplicasNeedReplicatedMode => "--replicas can only be specified in --mode replicated"
    case InvalidCPU(c) => "invalid cpu: " + c
    case CPUPrecision(c) => "CPU value cannot have more than 9 decimal places: " + c
    case InvalidRestartCondition(c) => "invalid restart condition: " + c
    case BindFormat(b) => "bind format \"" + b + "\" not supported"
    case VolumeFormat(v) => "volume format \"" + v + "\" not supported"
    case NotFound(k, i) => KindName(k) + " " + i + " not found"
    case Ambiguous(k, i, n) => KindName(k) + " " + i + " is ambiguous (" + NatToString(n) + " matches found)"
    case NameAndImageMandatory => "name and image are mandatory"
    case ServiceIDMissing => "service ID missing"
    case NoChangesDetected => "no changes detected"
    case UnrecognizedRole(r) => "unrecognized role " + r
    case NameRequired => "name is required"
    case InvalidCIDR(c) => "invalid CIDR address: " + c
    case AlreadyAccepted(n) => "Node " + n + " was already accepted"
    case AlreadyActive(n) => "Node " + n + " is already active"
    case Remote(m) => m
  }

  /** The white-space characters Go's strings.TrimSpace removes (the Latin-1 part of
      unicode.IsSpace). */
  predicate IsSpace(c: char) {
    c == ' ' || c == '\t' || c == '\n' || c == '\r' || c == '\U{000B}' || c == '\U{000C}'
    || c == '\U{0085}' || c == '\U{00A0}'
  }

  /** Every character is white space (this includes the empty string). */
  predicate Blank(s: string) {
    forall i :: 0 <= i < |s| ==> IsSpace(s[i])
  }

  /** Leading white space removed. */
  function TrimLeft(s: string): string {
    if |s| > 0 && IsSpace(s[0]) then TrimLeft(s[1..]) else s
  }

  /** Trailing white space removed. */
  function TrimRight(s: string): string {
    if |s| > 0 && IsSpace(s[|s| - 1]) then TrimRight(s[..|s| - 1]) else s
  }

  /** Go's strings.TrimSpace. */
  function TrimSpace(s: string): string {
    TrimRight(TrimLeft(s))
  }

  /** TrimLeft keeps the longest suffix that starts with a non-space. */
  lemma {:induction false} TrimLeftSpec(s: string)
    ensures var r := TrimLeft(s);
      && |r| <= |s| && r == s[|s| - |r|..] && Blank(s[..|s| - |r|])
      && (r == [] || !IsSpace(r[0]))
  {
    if |s| > 0 && IsSpace(s[0]) {
      TrimLeftSpec(s[1..]);
      var r := TrimLeft(s[1..]);
      assert s[..|s| - |r|] == [s[0]] + s[1..][..|s| - 1 - |r|];
    }
  }

  /** TrimRight keeps the longest prefix that ends with a non-space. */
  lemma {:induction false} TrimRightSpec(s: string)
    ensures var r := TrimRight(s);
      && |r| <= |s| && r == s[..|r|] && Blank(s[|r|..])
      && (r == [] || !IsSpace(r[|r| - 1]))
  {
    if |s| > 0 && IsSpace(s[|s| - 1]) {
      TrimRightSpec(s[..|s| - 1]);
      var r := TrimRight(s[..|s| - 1]);
      assert s[|r|..] == s[..|s| - 1][|r|..] + [s[|s| - 1]];
    }
  }

  /** TrimSpace keeps a contiguous piece of `s` with no white space at either end,
      everything cut off around it being white space. */
  lemma TrimSpaceShape(s: string)
    ensures var r := TrimSpace(s);
      && (exists k :: 0 <= k <= |s| - |r| && r == s[k..k + |r|] && Blank(s[..k]) && Blank(s[k + |r|..]))
      && (r == [] || (!IsSpace(r[0]) && !IsSpace(r[|r| - 1])))
  {
    var l := TrimLeft(s);
    TrimLeftSpec(s);
    TrimRightSpec(l);
    var r := TrimRight(l);
    var k := |s| - |l|;
    assert r == s[k..k + |r|];
    assert s[k + |r|..] == l[|r|..];
  }

  /** TrimSpace yields the empty string exactly when the input is blank. */
  lemma {:induction false} TrimSpaceEmptyIffBlank(s: string)
    ensures TrimSpace(s) == [] <==> Blank(s)
  {
    var l := TrimLeft(s);
    TrimLeftSpec(s);
    TrimRightSpec(l);
    var k := |s| - |l|;
    if TrimSpace(s) == [] {
      assert Blank(l);
      assert l == [];
      assert s[..k] == s;
    }
  }

  /** A string with a non-space character at each end is left as it is. */
  lemma {:induction false} TrimSpaceOfTrimmed(s: string)
    requires s != [] && !IsSpace(s[0]) && !IsSpace(s[|s| - 1])
    ensures TrimSpace(s) == s
  {
    assert TrimLeft(s) == s;
  }

  /** The number of bytes the UTF-8 encoding of `c` takes. */
  function CharBytes(c: char): (r: nat)
    ensures 1 <= r <= 4
    ensures r == 1 <==> c as int < 0x80
  {
    if c as int < 0x80 then 1
    else if c as int < 0x800 then 2
    else if c as int < 0x1_0000 then 3
    else 4
  }

  /** Go's `len` of a string: the length in bytes of its UTF-8 encoding. */
  function Utf8Len(s: string): (r: nat)
    ensures r >= |s|
  {
    if s == [] then 0 else CharBytes(s[0]) + Utf8Len(s[1..])
  }

  /** A string is longer than one byte exactly when it has two characters or more, or
      a single character outside ASCII; it has no bytes exactly when it is empty. */
  lemma {:induction false} Utf8LenAboveOne(s: string)
    ensures Utf8Len(s) > 1 <==> |s| > 1 || (|s| == 1 && s[0] as int >= 0x80)
    ensures Utf8Len(s) == 0 <==> s == []
  {
    if |s| == 1 {
      assert s[1..] == [];
    }
  }

  /** On ASCII text the byte length is the character count. */
  lemma {:induction false} Utf8LenOfAscii(s: string)
    requires forall i :: 0 <= i < |s| ==> s[i] as int < 0x80
    ensures Utf8Len(s) == |s|
  {
    if s != [] {
      Utf8LenOfAscii(s[1..]);
    }
  }

  /** The index of the first occurrence of `c` in `s`, if any. */
  function IndexOf(s: string, c: char): (r: Option<nat>)
    ensures r.None? <==> c !in s
    ensures r.Some? ==> r.value < |s| && s[r.value] == c && c !in s[..r.value]
  {
    if |s| == 0 then None
    else if s[0] == c then Some(0)
    else match IndexOf(s[1..], c)
      case None => None
      case Some(i) => assert s[..i + 1] == [s[0]] + s[1..][..i]; Some(i + 1)
  }

  /** The first `c` of a string whose only `c` before it is none is found where it was
      placed. */
  lemma IndexOfFirst(a: string, c: char, b: string)
    requires c !in a
    ensures IndexOf(a + [c] + b, c) == Some(|a|)
  {
    var s := a + [c] + b;
    var r := IndexOf(s, c);
    assert s[|a|] == c;
    assert s[..|a|] == a;
  }

  /** The elements of `s` that satisfy `p`, in their original order. */
  function Filter<T>(s: seq<T>, p: T -> bool): (r: seq<T>)
    ensures |r| <= |s|
    ensures forall i :: 0 <= i < |r| ==> r[i] in s && p(r[i])
    ensures forall i :: 0 <= i < |s| && p(s[i]) ==> s[i] in r
  {
    if s == [] then [] else (if p(s[0]) then [s[0]] else []) + Filter(s[1..], p)
  }

  /** Filtering distributes over concatenation. */
  lemma {:induction false} FilterAppend<T>(s: seq<T>, t: seq<T>, p: T -> bool)
    ensures Filter(s + t, p) == Filter(s, p) + Filter(t, p)
  {
    if s != [] {
      assert (s + t)[1..] == s[1..] + t;
      FilterAppend(s[1..], t, p);
    } else {
      assert s + t == t;
    }
  }

  /** The filtering loop the handlers run: each element that passes `p` is appended,
      in order. */
  method FilterLoop<T>(s: seq<T>, p: T -> bool) returns (r: seq<T>)
    ensures r == Filter(s, p)
  {
    r := [];
    var i := 0;
    while i < |s|
      invariant 0 <= i <= |s|
      invariant r == Filter(s[..i], p)
    {
      FilterAppend(s[..i], [s[i]], p);
      assert s[..i + 1] == s[..i] + [s[i]];
      if p(s[i]) {
        r := r + [s[i]];
      }
      i := i + 1;
    }
    assert s[..i] == s;
  }

  /** `r` is obtained from `s` by deleting elements, keeping the rest in order. */
  ghost predicate IsSubsequence<T>(r: seq<T>, s: seq<T>)
    decreases |s|
  {
    r == [] || (s != [] && ((r[0] == s[0] && IsSubsequence(r[1..], s[1..])) || IsSubsequence(r, s[1..])))
  }

  /** The result of Filter is an order-preserving subsequence of its input. */
  lemma {:induction false} FilterIsSubsequence<T>(s: seq<T>, p: T -> bool)
    ensures IsSubsequence(Filter(s, p), s)
  {
    if s != [] {
      FilterIsSubsequence(s[1..], p);
      if p(s[0]) {
        assert Filter(s, p) == [s[0]] + Filter(s[1..], p);
        assert Filter(s, p)[1..] == Filter(s[1..], p);
      } else {
        assert Filter(s, p) == Filter(s[1..], p);
      }
    }
  }
}
