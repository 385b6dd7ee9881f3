/** The iptables printer and parser of pkg/packetfilter/iptables/iptables.go. */
module IptablesRuleSpec {
  import opened PacketFilter

  // ----- printing -----

  function ActionToStr(action: uint32): string {
    if action == ACTION_ACCEPT then "ACCEPT"
    else if action == ACTION_MSS then "TCPMSS"
    else if action == ACTION_MARK then "MARK"
    else if action == ACTION_SNAT then "SNAT"
    else if action == ACTION_DNAT then "DNAT"
    else ""
  }

  function ProtoSpec(proto: uint32): seq<string> {
    if proto == PROTO_UDP then ["-p", "udp", "-m", "udp"]
    else if proto == PROTO_TCP then ["-p", "tcp", "-m", "tcp"]
    else if proto == PROTO_ICMP then ["-p", "icmp"]
    else if proto == PROTO_ALL then ["-p", "all"]
    else []
  }

  function ClampSpec(clampType: uint32, mssValue: string): seq<string> {
    if clampType == CLAMP_TO_PMTU
      then ["--clamp-mss-to-pmtu", "-p", "tcp", "-m", "tcp", "--tcp-flags", "SYN,RST", "SYN"]
    else if clampType == CLAMP_TO_VALUE
      then ["--set-mss", mssValue, "-p", "tcp", "-m", "tcp", "--tcp-flags", "SYN,RST", "SYN"]
    else []
  }

  function Option(flag: string, value: string): seq<string> {
    if value == "" then [] else [flag, value]
  }

  function SetSpec(name: string, direction: string): seq<string> {
    if name == "" then [] else ["-m", "set", "--match-set", name, direction]
  }

  function MatchMarkSpec(rule: Rule): seq<string> {
    if rule.markValue != "" && rule.action != ACTION_MARK
    then ["-m", "mark", "--mark", rule.markValue + "/" + rule.markValue] else []
  }

  function SetMarkSpec(rule: Rule): seq<string> {
    if rule.markValue != "" && rule.action == ACTION_MARK
    then ["--set-mark", rule.markValue + "/" + rule.markValue] else []
  }

  function Target(rule: Rule): string {
    if rule.action == ACTION_JUMP then rule.targetChain else ActionToStr(rule.action)
  }

  /** The target and what follows it. */
  function TargetSpec(rule: Rule): seq<string> {
    ["-j", Target(rule)] + (Option("--to-source", rule.snatCIDR) + (Option("--to-destination", rule.dnatCIDR)
    + (ClampSpec(rule.clampType, rule.mssValue) + SetMarkSpec(rule))))
  }

  /** From the interfaces on. */
  function InterfaceSpec(rule: Rule): seq<string> {
    Option("-o", rule.outInterface)
      + (Option("-i", rule.inInterface) + (Option("--dport", rule.dPort) + TargetSpec(rule)))
  }

  /** From the mark condition on. */
  function MatchSpec(rule: Rule): seq<string> {
    MatchMarkSpec(rule) + (SetSpec(rule.srcSetName, "src") + (SetSpec(rule.destSetName, "dst") + InterfaceSpec(rule)))
  }

  function ToSpec(rule: Rule): seq<string> {
    ProtoSpec(rule.proto) + (Option("-s", rule.srcCIDR) + (Option("-d", rule.destCIDR) + MatchSpec(rule)))
  }

  lemma Assoc(a: seq<string>, b: seq<string>, c: seq<string>)
    ensures (a + b) + c == a + (b + c)
  {
  }

  method AppendOption(spec: seq<string>, flag: string, value: string, ghost rest: seq<string>)
    returns (longer: seq<string>)
    ensures longer == spec + Option(flag, value)
    ensures longer + rest == spec + (Option(flag, value) + rest)
  {
    longer := spec;
    if value != "" {
      longer := longer + [flag, value];
    }
    Assoc(spec, Option(flag, value), rest);
  }

  method AppendConditions(rule: Rule) returns (spec: seq<string>)
    ensures spec + InterfaceSpec(rule) == ToSpec(rule)
  {
    ghost var sets := SetSpec(rule.srcSetName, "src") + (SetSpec(rule.destSetName, "dst") + InterfaceSpec(rule));
    spec := ProtoSpec(rule.proto);
    spec := AppendOption(spec, "-s", rule.srcCIDR, Option("-d", rule.destCIDR) + MatchSpec(rule));
    spec := AppendOption(spec, "-d", rule.destCIDR, MatchSpec(rule));
    Assoc(spec, MatchMarkSpec(rule), sets);
    spec := spec + MatchMarkSpec(rule);
    Assoc(spec, SetSpec(rule.srcSetName, "src"), SetSpec(rule.destSetName, "dst") + InterfaceSpec(rule));
    spec := spec + SetSpec(rule.srcSetName, "src");
    Assoc(spec, SetSpec(rule.destSetName, "dst"), InterfaceSpec(rule));
    spec := spec + SetSpec(rule.destSetName, "dst");
  }

  method ToRuleSpec(rule: Rule) returns (spec: seq<string>)
    ensures spec == ToSpec(rule)
  {
    spec := AppendConditions(rule);
    spec := AppendOption(spec, "-o", rule.outInterface,
      Option("-i", rule.inInterface) + (Option("--dport", rule.dPort) + TargetSpec(rule)));
    spec := AppendOption(spec, "-i", rule.inInterface, Option("--dport", rule.dPort) + TargetSpec(rule));
    spec := AppendOption(spec, "--dport", rule.dPort, TargetSpec(rule));
    ghost var clamp := ClampSpec(rule.clampType, rule.mssValue) + SetMarkSpec(rule);
    Assoc(spec, ["-j", Target(rule)],
      Option("--to-source", rule.snatCIDR) + (Option("--to-destination", rule.dnatCIDR) + clamp));
    if rule.action == ACTION_JUMP {
      spec := spec + ["-j", rule.targetChain];
    } else {
      spec := spec + ["-j", ActionToStr(rule.action)];
    }
    spec := AppendOption(spec, "--to-source", rule.snatCIDR, Option("--to-destination", rule.dnatCIDR) + clamp);
    spec := AppendOption(spec, "--to-destination", rule.dnatCIDR, clamp);
    Assoc(spec, ClampSpec(rule.clampType, rule.mssValue), SetMarkSpec(rule));
    spec := spec + ClampSpec(rule.clampType, rule.mssValue);
    spec := spec + SetMarkSpec(rule);
  }

  // ----- parsing -----

  function ParseProtocol(s: string): uint32 {
    if s == "udp" then PROTO_UDP
    else if s == "tcp" then PROTO_TCP
    else if s == "icmp" then PROTO_ICMP
    else if s == "all" then PROTO_ALL
    else PROTO_UNDEFINED
  }

  function ParseAction(s: string): uint32 {
    if s == "ACCEPT" then ACTION_ACCEPT
    else if s == "TCPMSS" then ACTION_MSS
    else if s == "MARK" then ACTION_MARK
    else if s == "SNAT" then ACTION_SNAT
    else if s == "DNAT" then ACTION_DNAT
    else ACTION_JUMP
  }

  /** The part before the first slash. */
  function BeforeSlash(s: string): (before: string)
    ensures '/' !in before && before <= s
    ensures '/' !in s <==> before == s
  {
    if s == "" || s[0] == '/' then "" else [s[0]] + BeforeSlash(s[1..])
  }

  function ParseMark(s: string): string {
    if '/' in s then BeforeSlash(s) else ""
  }

  /** The term that follows the flag at the head of t; a flag that ends the list has none. */
  function Next(t: seq<string>): string {
    if |t| > 1 then t[1] else ""
  }

  /** How many tokens a flag with one term takes. */
  function Width(t: seq<string>): (n: nat)
    requires t != []
    ensures 1 <= n <= |t|
  {
    if |t| > 1 then 2 else 1
  }

  function MatchStep(t: seq<string>, r: Rule): (result: (Rule, nat))
    requires t != []
    ensures 1 <= result.1 <= |t|
  {
    if |t| == 1 then (r, 1)
    else if t[1] == "mark" && |t| > 3 && t[2] == "--mark" then (r.(markValue := ParseMark(t[3])), 4)
    else if t[1] == "set" && |t| > 4 && t[2] == "--match-set" then
      if t[4] == "src" then (r.(srcSetName := t[3]), 5)
      else if t[4] == "dst" then (r.(destSetName := t[3]), 5)
      else (r, 5)
    else (r, 2)
  }

  function JumpStep(t: seq<string>, r: Rule): (result: (Rule, nat))
    requires t != []
    ensures 1 <= result.1 <= |t|
  {
    if |t| == 1 then (r.(action := ACTION_JUMP, targetChain := t[0]), 1)
    else if ParseAction(t[1]) == ACTION_JUMP then (r.(action := ACTION_JUMP, targetChain := t[1]), 2)
    else (r.(action := ParseAction(t[1])), 2)
  }

  datatype Flag = Protocol | Source | Destination | Match | ToDestination | ToSource | InInterface | OutInterface
    | DestPort | SetMark | ClampMss | SetMss | Jump | Other

  function FlagOf(s: string): Flag {
    if s == "-p" then Protocol
    else if s == "-s" then Source
    else if s == "-d" then Destination
    else if s == "-m" then Match
    else if s == "--to-destination" then ToDestination
    else if s == "--to-source" then ToSource
    else if s == "-i" then InInterface
    else if s == "-o" then OutInterface
    else if s == "--dport" then DestPort
    else if s == "--set-mark" then SetMark
    else if s == "--clamp-mss-to-pmtu" then ClampMss
    else if s == "--set-mss" then SetMss
    else if s == "-j" then Jump
    else Other
  }

  /** One turn of the parser's loop: the rule so far and the number of tokens taken. */
  function Step(t: seq<string>, r: Rule): (result: (Rule, nat))
    requires t != []
    ensures 1 <= result.1 <= |t|
  {
    match FlagOf(t[0])
    case Protocol => (r.(proto := if |t| > 1 then ParseProtocol(t[1]) else PROTO_UNDEFINED), Width(t))
    case Source => (r.(srcCIDR := Next(t)), Width(t))
    case Destination => (r.(destCIDR := Next(t)), Width(t))
    case Match => MatchStep(t, r)
    case ToDestination => (r.(dnatCIDR := Next(t)), Width(t))
    case ToSource => (r.(snatCIDR := Next(t)), Width(t))
    case InInterface => (r.(inInterface := Next(t)), Width(t))
    case OutInterface => (r.(outInterface := Next(t)), Width(t))
    case DestPort => (r.(dPort := Next(t)), Width(t))
    case SetMark => (r.(markValue := if |t| > 1 then ParseMark(t[1]) else ""), Width(t))
    case ClampMss => (r.(clampType := CLAMP_TO_PMTU), 1)
    case SetMss => (r.(mssValue := Next(t), clampType := CLAMP_TO_VALUE), Width(t))
    case Jump => JumpStep(t, r)
    case Other => (r, 1)
  }

  function Parse(t: seq<string>, r: Rule): Rule {
    if t == [] then r
    else
      var (r', n) := Step(t, r);
      Parse(t[n..], r')
  }

  function Finished(r: Rule): Rule {
    if r.action == ACTION_MSS then r.(proto := PROTO_UNDEFINED) else r
  }

  function FromSpec(spec: seq<string>): Rule {
    Finished(Parse(spec, EMPTY_RULE))
  }

  method ParseNextTerm<T>(spec: seq<string>, i: nat, zero: T, parse: string -> T) returns (term: T, j: nat)
    requires i < |spec|
    ensures j + 1 == i + Width(spec[i..]) && j < |spec|
    ensures term == if i + 1 < |spec| then parse(spec[i + 1]) else zero
  {
    if i + 1 >= |spec| {
      return zero, i;
    }
    return parse(spec[i + 1]), i + 1;
  }

  method ParseRuleMatch(spec: seq<string>, i: nat, r: Rule) returns (rule: Rule, j: nat)
    requires i < |spec|
    ensures j < |spec|
    ensures (rule, j + 1 - i) == MatchStep(spec[i..], r)
  {
    rule, j := r, i;
    if j + 1 >= |spec| {
      return;
    }
    j := j + 1;
    if spec[j] == "mark" {
      if j + 2 < |spec| && spec[j + 1] == "--mark" {
        rule := rule.(markValue := ParseMark(spec[j + 2]));
        j := j + 2;
      }
    } else if spec[j] == "set" {
      if j + 3 < |spec| && spec[j + 1] == "--match-set" {
        if spec[j + 3] == "src" {
          rule := rule.(srcSetName := spec[j + 2]);
        } else if spec[j + 3] == "dst" {
          rule := rule.(destSetName := spec[j + 2]);
        }
        j := j + 3;
      }
    }
  }

  /** Handles the token at i and returns the index of the last token it took. */
  method ParseToken(spec: seq<string>, i: nat, r: Rule) returns (rule: Rule, j: nat)
    requires i < |spec|
    ensures i <= j < |spec|
    ensures (rule, j + 1 - i) == Step(spec[i..], r)
  {
    rule, j := r, i;
    var s: string := "";
    var u: uint32 := 0;
    if spec[i] == "-p" {
      u, j := ParseNextTerm(spec, i, PROTO_UNDEFINED, ParseProtocol);
      rule := rule.(proto := u);
    } else if spec[i] == "-s" {
      s, j := ParseNextTerm(spec, i, "", x => x);
      rule := rule.(srcCIDR := s);
    } else if spec[i] == "-d" {
      s, j := ParseNextTerm(spec, i, "", x => x);
      rule := rule.(destCIDR := s);
    } else if spec[i] == "-m" {
      rule, j := ParseRuleMatch(spec, i, rule);
    } else if spec[i] == "--to-destination" {
      s, j := ParseNextTerm(spec, i, "", x => x);
      rule := rule.(dnatCIDR := s);
    } else if spec[i] == "--to-source" {
      s, j := ParseNextTerm(spec, i, "", x => x);
      rule := rule.(snatCIDR := s);
    } else if spec[i] == "-i" {
      s, j := ParseNextTerm(spec, i, "", x => x);
      rule := rule.(inInterface := s);
    } else if spec[i] == "-o" {
      s, j := ParseNextTerm(spec, i, "", x => x);
      rule := rule.(outInterface := s);
    } else if spec[i] == "--dport" {
      s, j := ParseNextTerm(spec, i, "", x => x);
      rule := rule.(dPort := s);
    } else if spec[i] == "--set-mark" {
      s, j := ParseNextTerm(spec, i, "", ParseMark);
      rule := rule.(markValue := s);
    } else if spec[i] == "--clamp-mss-to-pmtu" {
      rule := rule.(clampType := CLAMP_TO_PMTU);
    } else if spec[i] == "--set-mss" {
      s, j := ParseNextTerm(spec, i, "", x => x);
      rule := rule.(mssValue := s);
      rule := rule.(clampType := CLAMP_TO_VALUE);
    } else if spec[i] == "-j" {
      u, j := ParseNextTerm(spec, i, ACTION_JUMP, ParseAction);
      rule := rule.(action := u);
      if rule.action == ACTION_JUMP {
        rule := rule.(targetChain := spec[j]);
      }
    }
  }

  lemma ParseStep(t: seq<string>, rest: seq<string>, r: Rule, r': Rule, n: nat)
    requires t != [] && (r', n) == Step(t, r) && t[n..] == rest
    ensures Parse(t, r) == Parse(rest, r')
  {
  }

  lemma Slices(spec: seq<string>, i: nat, k: nat)
    requires i <= k <= |spec|
    ensures spec[i..][k - i..] == spec[k..]
  {
  }

  /** One round of the loop leaves the rest of the list to be parsed. */
  method TakeToken(spec: seq<string>, i: nat, r: Rule) returns (rule: Rule, j: nat)
    requires i < |spec|
    ensures i <= j < |spec| && Parse(spec[i..], r) == Parse(spec[j + 1..], rule)
  {
    rule, j := ParseToken(spec, i, r);
    Slices(spec, i, j + 1);
    ParseStep(spec[i..], spec[j + 1..], r, rule, j + 1 - i);
  }

  /** Terminates with every index in bounds on any token list. */
  method FromRuleSpec(spec: seq<string>) returns (rule: Rule)
    ensures rule == FromSpec(spec)
  {
    rule := EMPTY_RULE;
    var i := 0;
    while i < |spec|
      invariant 0 <= i <= |spec|
      invariant Parse(spec, EMPTY_RULE) == Parse(spec[i..], rule)
    {
      rule, i := TakeToken(spec, i, rule);
      i := i + 1;
    }
    if rule.action == ACTION_MSS {
      rule := rule.(proto := PROTO_UNDEFINED);
    }
  }

  // ----- round trip -----

  /** Parsing t + rest amounts to parsing rest once the tokens of t have been taken. */
  lemma TakesStep(t: seq<string>, rest: seq<string>, r: Rule)
    requires t != [] && Step(t + rest, r).1 == |t|
    ensures Parse(t + rest, r) == Parse(rest, Step(t + rest, r).0)
  {
    assert (t + rest)[|t|..] == rest;
  }

  /** What a flag with one term does to the rule. */
  function Assigned(flag: Flag, value: string, r: Rule): Rule {
    match flag
    case Source => r.(srcCIDR := value)
    case Destination => r.(destCIDR := value)
    case ToDestination => r.(dnatCIDR := value)
    case ToSource => r.(snatCIDR := value)
    case InInterface => r.(inInterface := value)
    case OutInterface => r.(outInterface := value)
    case DestPort => r.(dPort := value)
    case SetMss => r.(mssValue := value, clampType := CLAMP_TO_VALUE)
    case _ => r
  }

  lemma TakesTerm(flag: string, value: string, rest: seq<string>, r: Rule)
    requires FlagOf(flag) in {Source, Destination, ToDestination, ToSource, InInterface, OutInterface, DestPort, SetMss}
    ensures Parse([flag, value] + rest, r) == Parse(rest, Assigned(FlagOf(flag), value, r))
  {
    TakesStep([flag, value], rest, r);
  }

  lemma TakesOption(flag: string, value: string, rest: seq<string>, r: Rule)
    requires FlagOf(flag) in {Source, Destination, ToDestination, ToSource, InInterface, OutInterface, DestPort}
    requires Assigned(FlagOf(flag), "", r) == r
    ensures Parse(Option(flag, value) + rest, r) == Parse(rest, Assigned(FlagOf(flag), value, r))
  {
    if value == "" {
      assert Option(flag, value) + rest == rest;
    } else {
      TakesTerm(flag, value, rest, r);
    }
  }

  lemma TakesOther(token: string, rest: seq<string>, r: Rule)
    requires FlagOf(token) == Other
    ensures Parse([token] + rest, r) == Parse(rest, r)
  {
    TakesStep([token], rest, r);
  }

  lemma TakesProtocol(name: string, rest: seq<string>, r: Rule)
    ensures Parse(["-p", name] + rest, r) == Parse(rest, r.(proto := ParseProtocol(name)))
  {
    TakesStep(["-p", name], rest, r);
  }

  lemma TakesPlainMatch(name: string, rest: seq<string>, r: Rule)
    requires name != "mark" && name != "set"
    ensures Parse(["-m", name] + rest, r) == Parse(rest, r)
  {
    TakesStep(["-m", name], rest, r);
  }

  lemma TakesTransport(name: string, rest: seq<string>, r: Rule)
    requires name != "mark" && name != "set"
    ensures Parse(["-p", name, "-m", name] + rest, r) == Parse(rest, r.(proto := ParseProtocol(name)))
  {
    var r' := r.(proto := ParseProtocol(name));
    var t := ["-m", name] + rest;
    SplitTransport(name, rest);
    assert Parse(["-p", name] + t, r) == Parse(t, r') by { TakesProtocol(name, t, r); }
    assert Parse(t, r') == Parse(rest, r') by { TakesPlainMatch(name, rest, r'); }
  }

  lemma SplitTransport(name: string, rest: seq<string>)
    ensures ["-p", name, "-m", name] + rest == ["-p", name] + (["-m", name] + rest)
  {
  }

  function KnownProto(proto: uint32): uint32 {
    if proto <= PROTO_ICMP then proto else PROTO_UNDEFINED
  }

  lemma TakesProto(proto: uint32, rest: seq<string>, r: Rule)
    requires r.proto == PROTO_UNDEFINED
    ensures Parse(ProtoSpec(proto) + rest, r) == Parse(rest, r.(proto := KnownProto(proto)))
  {
    if proto == PROTO_UDP {
      TakesTransport("udp", rest, r);
    } else if proto == PROTO_TCP {
      TakesTransport("tcp", rest, r);
    } else if proto == PROTO_ICMP {
      TakesProtocol("icmp", rest, r);
    } else if proto == PROTO_ALL {
      TakesProtocol("all", rest, r);
    } else {
      assert ProtoSpec(proto) + rest == rest;
    }
  }

  lemma TakesSet(name: string, direction: string, rest: seq<string>, r: Rule)
    requires (direction == "src" && r.srcSetName == "") || (direction == "dst" && r.destSetName == "")
    ensures Parse(SetSpec(name, direction) + rest, r)
         == Parse(rest, if direction == "src" then r.(srcSetName := name) else r.(destSetName := name))
  {
    if name == "" {
      assert SetSpec(name, direction) + rest == rest;
    } else {
      TakesStep(SetSpec(name, direction), rest, r);
    }
  }

  lemma {:induction false} BeforeSlashPrefix(v: string, w: string)
    requires w != "" && w[0] == '/'
    ensures BeforeSlash(v + w) == BeforeSlash(v)
  {
    if v == "" {
      assert v + w == w;
    } else if v[0] != '/' {
      assert (v + w)[1..] == v[1..] + w;
      BeforeSlashPrefix(v[1..], w);
    }
  }

  lemma ParseMarkOfPair(v: string)
    ensures ParseMark(v + "/" + v) == BeforeSlash(v)
  {
    BeforeSlashPrefix(v, "/" + v);
    assert v + ("/" + v) == v + "/" + v;
  }

  function MatchedMark(rule: Rule): string {
    if rule.action != ACTION_MARK then BeforeSlash(rule.markValue) else ""
  }

  lemma TakesMatchMark(rule: Rule, rest: seq<string>, r: Rule)
    requires r.markValue == ""
    ensures Parse(MatchMarkSpec(rule) + rest, r) == Parse(rest, r.(markValue := MatchedMark(rule)))
  {
    if MatchMarkSpec(rule) == [] {
      assert MatchMarkSpec(rule) + rest == rest;
    } else {
      ParseMarkOfPair(rule.markValue);
      TakesStep(MatchMarkSpec(rule), rest, r);
    }
  }

  lemma TakesSetMark(rule: Rule, r: Rule)
    requires r.markValue == MatchedMark(rule)
    ensures Parse(SetMarkSpec(rule), r) == r.(markValue := BeforeSlash(rule.markValue))
  {
    if SetMarkSpec(rule) != [] {
      assert SetMarkSpec(rule) + [] == SetMarkSpec(rule);
      ParseMarkOfPair(rule.markValue);
      TakesStep(SetMarkSpec(rule), [], r);
    }
  }

  const TCP_FLAGS: seq<string> := ["-p", "tcp", "-m", "tcp", "--tcp-flags", "SYN,RST", "SYN"]

  lemma TakesTcpFlags(rest: seq<string>, r: Rule)
    ensures Parse(TCP_FLAGS + rest, r) == Parse(rest, r.(proto := PROTO_TCP))
  {
    var r' := r.(proto := PROTO_TCP);
    var t2 := ["SYN"] + rest;
    var t1 := ["SYN,RST"] + t2;
    assert TCP_FLAGS + rest == ["-p", "tcp", "-m", "tcp"] + (["--tcp-flags"] + t1);
    TakesTransport("tcp", ["--tcp-flags"] + t1, r);
    TakesOther("--tcp-flags", t1, r');
    TakesOther("SYN,RST", t2, r');
    TakesOther("SYN", rest, r');
  }

  function Clamped(r: Rule, clampType: uint32, mssValue: string): Rule {
    if clampType == CLAMP_TO_PMTU then r.(clampType := CLAMP_TO_PMTU, proto := PROTO_TCP)
    else if clampType == CLAMP_TO_VALUE then r.(clampType := CLAMP_TO_VALUE, mssValue := mssValue, proto := PROTO_TCP)
    else r
  }

  lemma TakesClampToPmtu(rest: seq<string>, r: Rule)
    ensures Parse(["--clamp-mss-to-pmtu"] + rest, r) == Parse(rest, r.(clampType := CLAMP_TO_PMTU))
  {
    TakesStep(["--clamp-mss-to-pmtu"], rest, r);
  }

  lemma TakesClamp(clampType: uint32, mssValue: string, rest: seq<string>, r: Rule)
    ensures Parse(ClampSpec(clampType, mssValue) + rest, r) == Parse(rest, Clamped(r, clampType, mssValue))
  {
    var t := ClampSpec(clampType, mssValue);
    if clampType == CLAMP_TO_PMTU {
      assert t + rest == ["--clamp-mss-to-pmtu"] + (TCP_FLAGS + rest);
      TakesClampToPmtu(TCP_FLAGS + rest, r);
      TakesTcpFlags(rest, r.(clampType := CLAMP_TO_PMTU));
    } else if clampType == CLAMP_TO_VALUE {
      assert t + rest == ["--set-mss", mssValue] + (TCP_FLAGS + rest);
      TakesTerm("--set-mss", mssValue, TCP_FLAGS + rest, r);
      TakesTcpFlags(rest, r.(clampType := CLAMP_TO_VALUE, mssValue := mssValue));
    } else {
      assert t + rest == rest;
    }
  }

  lemma TakesTarget(target: string, rest: seq<string>, r: Rule)
    requires r.targetChain == ""
    ensures Parse(["-j", target] + rest, r) == Parse(rest, Targeted(target, r))
  {
    TakesStep(["-j", target], rest, r);
  }

  function Targeted(target: string, r: Rule): Rule {
    var action := ParseAction(target);
    r.(action := action, targetChain := if action == ACTION_JUMP then target else "")
  }

  /** The rule after the tokens of each group, when parsing starts from the empty rule. */
  function Addressed(rule: Rule): Rule {
    EMPTY_RULE.(proto := KnownProto(rule.proto), srcCIDR := rule.srcCIDR, destCIDR := rule.destCIDR)
  }

  function Matched(rule: Rule): Rule {
    Addressed(rule).(markValue := MatchedMark(rule), srcSetName := rule.srcSetName, destSetName := rule.destSetName)
  }

  function Conditioned(rule: Rule): Rule {
    Matched(rule).(outInterface := rule.outInterface, inInterface := rule.inInterface, dPort := rule.dPort)
  }

  lemma ParseAddresses(rule: Rule)
    ensures Parse(ToSpec(rule), EMPTY_RULE) == Parse(MatchSpec(rule), Addressed(rule))
  {
    var r1 := EMPTY_RULE.(proto := KnownProto(rule.proto));
    var t2 := Option("-d", rule.destCIDR) + MatchSpec(rule);
    TakesProto(rule.proto, Option("-s", rule.srcCIDR) + t2, EMPTY_RULE);
    TakesOption("-s", rule.srcCIDR, t2, r1);
    TakesOption("-d", rule.destCIDR, MatchSpec(rule), r1.(srcCIDR := rule.srcCIDR));
  }

  lemma ParseMatches(rule: Rule)
    ensures Parse(MatchSpec(rule), Addressed(rule)) == Parse(InterfaceSpec(rule), Matched(rule))
  {
    var r1 := Addressed(rule).(markValue := MatchedMark(rule));
    var t2 := SetSpec(rule.destSetName, "dst") + InterfaceSpec(rule);
    TakesMatchMark(rule, SetSpec(rule.srcSetName, "src") + t2, Addressed(rule));
    TakesSet(rule.srcSetName, "src", t2, r1);
    TakesSet(rule.destSetName, "dst", InterfaceSpec(rule), r1.(srcSetName := rule.srcSetName));
  }

  lemma TakesOutInterface(out: string, rest: seq<string>, r: Rule)
    requires r.outInterface == ""
    ensures Parse(Option("-o", out) + rest, r) == Parse(rest, r.(outInterface := out))
  {
    TakesOption("-o", out, rest, r);
  }

  lemma TakesInInterface(in': string, rest: seq<string>, r: Rule)
    requires r.inInterface == ""
    ensures Parse(Option("-i", in') + rest, r) == Parse(rest, r.(inInterface := in'))
  {
    TakesOption("-i", in', rest, r);
  }

  lemma TakesDestPort(dPort: string, rest: seq<string>, r: Rule)
    requires r.dPort == ""
    ensures Parse(Option("--dport", dPort) + rest, r) == Parse(rest, r.(dPort := dPort))
  {
    TakesOption("--dport", dPort, rest, r);
  }

  lemma TakesInterfaces(out: string, in': string, dPort: string, rest: seq<string>, r: Rule)
    requires r.outInterface == "" && r.inInterface == "" && r.dPort == ""
    ensures Parse(Option("-o", out) + (Option("-i", in') + (Option("--dport", dPort) + rest)), r)
         == Parse(rest, r.(outInterface := out, inInterface := in', dPort := dPort))
  {
    var t2 := Option("--dport", dPort) + rest;
    TakesOutInterface(out, Option("-i", in') + t2, r);
    TakesInInterface(in', t2, r.(outInterface := out));
    TakesDestPort(dPort, rest, r.(outInterface := out, inInterface := in'));
  }

  lemma ParseInterfaces(rule: Rule)
    ensures Parse(InterfaceSpec(rule), Matched(rule)) == Parse(TargetSpec(rule), Conditioned(rule))
  {
    TakesInterfaces(rule.outInterface, rule.inInterface, rule.dPort, TargetSpec(rule), Matched(rule));
  }

  lemma ParseTarget(rule: Rule)
    ensures var r := Targeted(Target(rule), Conditioned(rule)).(snatCIDR := rule.snatCIDR, dnatCIDR := rule.dnatCIDR);
      Parse(TargetSpec(rule), Conditioned(rule))
        == Parse(ClampSpec(rule.clampType, rule.mssValue) + SetMarkSpec(rule), r)
  {
    var r1 := Targeted(Target(rule), Conditioned(rule));
    var t3 := ClampSpec(rule.clampType, rule.mssValue) + SetMarkSpec(rule);
    var t2 := Option("--to-destination", rule.dnatCIDR) + t3;
    TakesTarget(Target(rule), Option("--to-source", rule.snatCIDR) + t2, Conditioned(rule));
    TakesOption("--to-source", rule.snatCIDR, t2, r1);
    TakesOption("--to-destination", rule.dnatCIDR, t3, r1.(snatCIDR := rule.snatCIDR));
  }

  /** What any rule becomes when it is printed and parsed again. */
  function Reread(rule: Rule): Rule {
    var action := ParseAction(Target(rule));
    var clamped := rule.clampType == CLAMP_TO_PMTU || rule.clampType == CLAMP_TO_VALUE;
    rule.(
      action := action,
      targetChain := if action == ACTION_JUMP then Target(rule) else "",
      markValue := BeforeSlash(rule.markValue),
      clampType := if clamped then rule.clampType else CLAMP_UNDEFINED,
      mssValue := if rule.clampType == CLAMP_TO_VALUE then rule.mssValue else "",
      proto := if action == ACTION_MSS then PROTO_UNDEFINED else if clamped then PROTO_TCP else KnownProto(rule.proto))
  }

  /** The exact result of printing and parsing, for every rule over arbitrary strings. */
  lemma PrintedRuleRereads(rule: Rule)
    ensures FromSpec(ToSpec(rule)) == Reread(rule)
  {
    ParseAddresses(rule);
    ParseMatches(rule);
    ParseInterfaces(rule);
    ParseTarget(rule);
    var r := Targeted(Target(rule), Conditioned(rule)).(snatCIDR := rule.snatCIDR, dnatCIDR := rule.dnatCIDR);
    TakesClamp(rule.clampType, rule.mssValue, SetMarkSpec(rule), r);
    TakesSetMark(rule, Clamped(r, rule.clampType, rule.mssValue));
  }

  /** The rules the two functions were written for. */
  predicate WellFormed(rule: Rule) {
    && rule.action <= ACTION_DNAT
    && rule.proto <= PROTO_ICMP
    && rule.clampType <= CLAMP_TO_VALUE
    && (rule.action == ACTION_JUMP ==> rule.targetChain !in {"ACCEPT", "TCPMSS", "MARK", "SNAT", "DNAT"})
    && (rule.action != ACTION_JUMP ==> rule.targetChain == "")
    && '/' !in rule.markValue
    && (rule.action == ACTION_MSS ==> rule.proto == PROTO_UNDEFINED)
    && (rule.clampType != CLAMP_UNDEFINED ==> rule.action == ACTION_MSS || rule.proto == PROTO_TCP)
    && (rule.mssValue != "" ==> rule.clampType == CLAMP_TO_VALUE)
  }

  lemma ActionRereads(action: uint32, chain: string)
    ensures ACTION_JUMP < action <= ACTION_DNAT ==> ParseAction(ActionToStr(action)) == action
    ensures action > ACTION_DNAT ==> ParseAction(ActionToStr(action)) == ACTION_JUMP
    ensures ParseAction(chain) == ACTION_JUMP <==> chain !in {"ACCEPT", "TCPMSS", "MARK", "SNAT", "DNAT"}
  {
  }

  /** Parsing undoes printing on the well-formed rules and on no other. */
  lemma RoundTrip(rule: Rule)
    ensures FromSpec(ToSpec(rule)) == rule <==> WellFormed(rule)
  {
    PrintedRuleRereads(rule);
    ActionRereads(rule.action, rule.targetChain);
  }

  /** Two well-formed rules that print alike are the same rule. */
  lemma PrintingIsInjective(a: Rule, b: Rule)
    requires WellFormed(a) && WellFormed(b) && ToSpec(a) == ToSpec(b)
    ensures a == b
  {
    RoundTrip(a);
    RoundTrip(b);
  }

  // ----- examples -----

  /** A rule that clamps to the path MTU, for two sets. */
  lemma PrintsClampToPmtu(src: string, dst: string)
    requires src != "" && dst != ""
    ensures ToSpec(EMPTY_RULE.(srcSetName := src, destSetName := dst, action := ACTION_MSS, clampType := CLAMP_TO_PMTU))
      == ["-m", "set", "--match-set", src, "src", "-m", "set", "--match-set", dst, "dst", "-j", "TCPMSS",
          "--clamp-mss-to-pmtu", "-p", "tcp", "-m", "tcp", "--tcp-flags", "SYN,RST", "SYN"]
  {
  }

  lemma PrintsClampToValue(cidr: string, mss: string)
    requires cidr != ""
    ensures ToSpec(EMPTY_RULE.(srcCIDR := cidr, mssValue := mss, action := ACTION_MSS, clampType := CLAMP_TO_VALUE))
      == ["-s", cidr, "-j", "TCPMSS", "--set-mss", mss, "-p", "tcp", "-m", "tcp", "--tcp-flags", "SYN,RST", "SYN"]
  {
  }

  lemma PrintsAccept(src: string, dst: string, out: string, in': string, port: string)
    requires src != "" && dst != "" && out != "" && in' != "" && port != ""
    ensures ToSpec(EMPTY_RULE.(proto := PROTO_UDP, srcCIDR := src, destCIDR := dst, outInterface := out,
                               inInterface := in', dPort := port, action := ACTION_ACCEPT))
      == ["-p", "udp", "-m", "udp", "-s", src, "-d", dst, "-o", out, "-i", in', "--dport", port, "-j", "ACCEPT"]
  {
  }

  lemma PrintsMarkedSnat(src: string, mark: string, to: string)
    requires src != "" && mark != "" && to != ""
    ensures ToSpec(EMPTY_RULE.(proto := PROTO_TCP, srcCIDR := src, markValue := mark, snatCIDR := to,
      action := ACTION_SNAT))
      == ["-p", "tcp", "-m", "tcp", "-s", src, "-m", "mark", "--mark", mark + "/" + mark, "-j", "SNAT", "--to-source",
        to]
  {
  }

  lemma PrintsDnat(dst: string, to: string)
    requires dst != "" && to != ""
    ensures ToSpec(EMPTY_RULE.(proto := PROTO_ICMP, destCIDR := dst, dnatCIDR := to, action := ACTION_DNAT))
      == ["-p", "icmp", "-d", dst, "-j", "DNAT", "--to-destination", to]
  {
  }

  lemma PrintsMark(dst: string, mark: string)
    requires dst != "" && mark != ""
    ensures ToSpec(EMPTY_RULE.(destCIDR := dst, markValue := mark, action := ACTION_MARK))
      == ["-d", dst, "-j", "MARK", "--set-mark", mark + "/" + mark]
  {
  }

  lemma PrintsJump(chain: string)
    ensures ToSpec(EMPTY_RULE.(proto := PROTO_ALL, targetChain := chain, action := ACTION_JUMP))
      == ["-p", "all", "-j", chain]
  {
  }

  /** The command lists a clamping rule in another order than it is given, and it is understood. */
  lemma ListedOrderIsUnderstood(cidr: string, mss: string)
    ensures FromSpec(["-s", cidr] + (["-p", "tcp", "-m", "tcp"] + (["--tcp-flags", "SYN,RST", "SYN"]
      + (["-j", "TCPMSS"] + ["--set-mss", mss]))))
      == EMPTY_RULE.(srcCIDR := cidr, action := ACTION_MSS, clampType := CLAMP_TO_VALUE, mssValue := mss)
  {
    var r := EMPTY_RULE.(srcCIDR := cidr, proto := PROTO_TCP);
    AddressAndProtocol(cidr, ["--tcp-flags", "SYN,RST", "SYN"] + (["-j", "TCPMSS"] + ["--set-mss", mss]));
    SkipsThree("--tcp-flags", "SYN,RST", "SYN", ["-j", "TCPMSS"] + ["--set-mss", mss], r);
    ClampTargetIsTaken(mss, r);
    assert r.(action := ACTION_MSS, clampType := CLAMP_TO_VALUE, mssValue := mss).action == ACTION_MSS;
  }

  lemma AddressAndProtocol(cidr: string, rest: seq<string>)
    ensures Parse(["-s", cidr] + (["-p", "tcp", "-m", "tcp"] + rest), EMPTY_RULE)
      == Parse(rest, EMPTY_RULE.(srcCIDR := cidr, proto := PROTO_TCP))
  {
    TakesTerm("-s", cidr, ["-p", "tcp", "-m", "tcp"] + rest, EMPTY_RULE);
    TakesTransport("tcp", rest, EMPTY_RULE.(srcCIDR := cidr));
  }

  lemma ClampTargetIsTaken(mss: string, r: Rule)
    requires r.targetChain == ""
    ensures Parse(["-j", "TCPMSS"] + ["--set-mss", mss], r)
      == r.(action := ACTION_MSS, clampType := CLAMP_TO_VALUE, mssValue := mss)
  {
    TakesTarget("TCPMSS", ["--set-mss", mss], r);
    TakesTerm("--set-mss", mss, [], Targeted("TCPMSS", r));
    assert ["--set-mss", mss] + [] == ["--set-mss", mss];
  }

  lemma SkipsThree(a: string, b: string, c: string, rest: seq<string>, r: Rule)
    requires FlagOf(a) == Other && FlagOf(b) == Other && FlagOf(c) == Other
    ensures Parse([a, b, c] + rest, r) == Parse(rest, r)
  {
    TakesOther(a, [b, c] + rest, r);
    TakesOther(b, [c] + rest, r);
    TakesOther(c, rest, r);
    assert [a] + ([b, c] + rest) == [a, b, c] + rest && [b] + ([c] + rest) == [b, c] + rest;
  }

  /** A flag at the end of the list has no term: most leave their field empty, a match is dropped, and a jump
      takes its own flag for the chain. */
  lemma LastFlagHasNoTerm(flag: string, r: Rule)
    ensures Parse([flag], r) ==
      match FlagOf(flag)
      case Jump => r.(action := ACTION_JUMP, targetChain := flag)
      case Protocol => r.(proto := PROTO_UNDEFINED)
      case SetMark => r.(markValue := "")
      case ClampMss => r.(clampType := CLAMP_TO_PMTU)
      case _ => Assigned(FlagOf(flag), "", r)
  {
    NoneLeft(flag, r);
  }

  /** The flags by name. */
  lemma FlagsByName()
    ensures FlagOf("-p") == Protocol && FlagOf("-s") == Source && FlagOf("-d") == Destination && FlagOf("-m") == Match
    ensures FlagOf("-i") == InInterface && FlagOf("-o") == OutInterface && FlagOf("-j") == Jump
    ensures FlagOf("--to-source") == ToSource && FlagOf("--to-destination") == ToDestination
    ensures FlagOf("--dport") == DestPort && FlagOf("--set-mark") == SetMark && FlagOf("--set-mss") == SetMss
    ensures FlagOf("--clamp-mss-to-pmtu") == ClampMss
  {
  }

  lemma NoneLeft(flag: string, r: Rule)
    ensures Parse([flag], r) == Step([flag], r).0
  {
    assert [flag][1..] == [];
  }

  /** A set match needs its own flag after the module's name: without it only the module is skipped. */
  lemma OnlyFullMatchesCount(module': string, other: string, rest: seq<string>, r: Rule)
    requires module' == "set" ==> other != "--match-set"
    requires module' == "mark" ==> other != "--mark"
    ensures Parse(["-m", module', other] + rest, r) == Parse([other] + rest, r)
  {
    assert (["-m", module', other] + rest)[2..] == [other] + rest;
  }

  /** A mark without a mask counts as none, and a set match in another direction is skipped as a whole. */
  lemma OddMatchesAreSkipped(mark: string, name: string, direction: string, rest: seq<string>, r: Rule)
    requires '/' !in mark && direction != "src" && direction != "dst"
    ensures Parse(["-m", "mark", "--mark", mark] + rest, r) == Parse(rest, r.(markValue := ""))
    ensures Parse(["-m", "set", "--match-set", name, direction] + rest, r) == Parse(rest, r)
  {
    TakesStep(["-m", "mark", "--mark", mark], rest, r);
    TakesStep(["-m", "set", "--match-set", name, direction], rest, r);
  }
}
