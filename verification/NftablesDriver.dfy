/** The nftables driver: rules are stored in the comments of kernel rules
    (pkg/packetfilter/nftables/rule_conversion.go and nftables.go). */
module NftablesDriver {
  import opened PacketFilter
  import opened RuleChain
  import opened Wrappers

  // ----- numbers -----

  const DIGITS: string := "0123456789"

  function FormatUint(n: nat): (s: string)
    ensures s != ""
  {
    if n < 10 then [DIGITS[n]] else FormatUint(n / 10) + [DIGITS[n % 10]]
  }

  predicate IsDigit(c: char) {
    '0' <= c <= '9'
  }

  function DigitValue(c: char): nat
    requires IsDigit(c)
  {
    c as int - '0' as int
  }

  function Value(s: string): nat
    requires forall i :: 0 <= i < |s| ==> IsDigit(s[i])
  {
    if s == "" then 0 else Value(s[..|s| - 1]) * 10 + DigitValue(s[|s| - 1])
  }

  /** strconv.ParseUint(s, 10, 32). */
  function ParseUint(s: string): Option<uint32> {
    if s == "" || exists i :: 0 <= i < |s| && !IsDigit(s[i]) then None
    else if Value(s) >= 0x1_0000_0000 then None
    else Some(Value(s))
  }

  lemma DigitAt(n: nat)
    requires n < 10
    ensures IsDigit(DIGITS[n]) && DigitValue(DIGITS[n]) == n
  {
  }

  lemma {:induction false} FormatIsDecimal(n: nat)
    ensures forall i :: 0 <= i < |FormatUint(n)| ==> IsDigit(FormatUint(n)[i])
    ensures Value(FormatUint(n)) == n
  {
    var s := FormatUint(n);
    if n < 10 {
      DigitAt(n);
      assert s[..0] == "";
    } else {
      FormatIsDecimal(n / 10);
      DigitAt(n % 10);
      assert s[..|s| - 1] == FormatUint(n / 10);
    }
  }

  lemma NumberRoundTrip(n: uint32)
    ensures ParseUint(FormatUint(n)) == Some(n) && ' ' !in FormatUint(n)
  {
    FormatIsDecimal(n);
  }

  /** In base ten. */
  lemma OneMoreDigit(s: string, c: char)
    requires (forall i :: 0 <= i < |s| ==> IsDigit(s[i])) && IsDigit(c)
    ensures Value("") == 0 && Value(s + [c]) == 10 * Value(s) + (c as int - 48)
  {
    assert (s + [c])[..|s|] == s;
  }

  // ----- tokens -----

  function Joined(fields: seq<string>): string {
    if fields == [] then "" else fields[0] + " " + Joined(fields[1..])
  }

  /** Everything before the first space, and everything after it. */
  function ReadToken(s: string): (result: Option<(string, string)>)
    ensures result.Some? ==> ' ' !in result.value.0 && s == result.value.0 + " " + result.value.1
    ensures result.None? <==> ' ' !in s
  {
    if s == "" then None
    else if s[0] == ' ' then Some(("", s[1..]))
    else
      var (token, rest) :- ReadToken(s[1..]);
      Some(([s[0]] + token, rest))
  }

  function ReadUint(s: string): Option<(uint32, string)> {
    var (token, rest) :- ReadToken(s);
    var n :- ParseUint(token);
    Some((n, rest))
  }

  lemma {:induction false} ReadsToken(token: string, rest: string)
    requires ' ' !in token
    ensures ReadToken(token + " " + rest) == Some((token, rest))
  {
    var s := token + " " + rest;
    if token == "" {
      assert s == " " + rest && s[1..] == rest;
    } else {
      ReadsToken(token[1..], rest);
      assert s[1..] == token[1..] + " " + rest;
      assert [s[0]] + token[1..] == token;
    }
  }

  lemma ReadsField(fields: seq<string>, k: nat)
    requires k < |fields| && ' ' !in fields[k]
    ensures ReadToken(Joined(fields[k..])) == Some((fields[k], Joined(fields[k + 1..])))
  {
    assert fields[k..][1..] == fields[k + 1..];
    ReadsToken(fields[k], Joined(fields[k + 1..]));
  }

  // ----- rules -----

  const SERIALIZED_VERSION: string := "1.0"

  function Fields(r: Rule): seq<string> {
    [FormatUint(r.action), FormatUint(r.clampType), FormatUint(r.proto),
     r.srcSetName, r.destSetName, r.srcCIDR, r.destCIDR, r.snatCIDR, r.dnatCIDR,
     r.outInterface, r.inInterface, r.dPort, r.targetChain, r.mssValue, r.markValue]
  }

  function Serialized(r: Rule): string {
    SERIALIZED_VERSION + Joined(Fields(r))
  }

  datatype Triple = Triple(first: string, second: string, third: string) {
    predicate SpaceFree() {
      ' ' !in first && ' ' !in second && ' ' !in third
    }
  }

  function ReadThree(s0: string): (result: Option<(Triple, string)>)
    ensures result.Some? ==> result.value.0.SpaceFree()
  {
    var (a, s1) :- ReadToken(s0);
    var (b, s2) :- ReadToken(s1);
    var (c, s3) :- ReadToken(s2);
    Some((Triple(a, b, c), s3))
  }

  function ReadNumbers(s0: string): Option<((uint32, uint32, uint32), string)> {
    var (action, s1) :- ReadUint(s0);
    var (clampType, s2) :- ReadUint(s1);
    var (proto, s3) :- ReadUint(s2);
    Some(((action, clampType, proto), s3))
  }

  datatype Strings = Strings(sets: Triple, addresses: Triple, interfaces: Triple, values: Triple) {
    predicate SpaceFree() {
      sets.SpaceFree() && addresses.SpaceFree() && interfaces.SpaceFree() && values.SpaceFree()
    }
  }

  function ReadStrings(s0: string): (result: Option<Strings>)
    ensures result.Some? ==> result.value.SpaceFree()
  {
    var (a, s1) :- ReadThree(s0);
    var (b, s2) :- ReadThree(s1);
    var (c, s3) :- ReadThree(s2);
    var (d, s4) :- ReadThree(s3);
    Some(Strings(a, b, c, d))
  }

  function ReadRule(s: string): Option<Rule> {
    var (numbers, s1) :- ReadNumbers(s);
    var strings :- ReadStrings(s1);
    Some(RuleOf(numbers, strings))
  }

  function RuleOf(numbers: (uint32, uint32, uint32), t: Strings): Rule {
    Rule(srcSetName := t.sets.first, destSetName := t.sets.second, srcCIDR := t.sets.third,
         destCIDR := t.addresses.first, snatCIDR := t.addresses.second, dnatCIDR := t.addresses.third,
         outInterface := t.interfaces.first, inInterface := t.interfaces.second, dPort := t.interfaces.third,
         targetChain := t.values.first, mssValue := t.values.second, markValue := t.values.third,
         action := numbers.0, proto := numbers.2, clampType := numbers.1)
  }

  function StringsOf(r: Rule): Strings {
    Strings(Triple(r.srcSetName, r.destSetName, r.srcCIDR), Triple(r.destCIDR, r.snatCIDR, r.dnatCIDR),
            Triple(r.outInterface, r.inInterface, r.dPort), Triple(r.targetChain, r.mssValue, r.markValue))
  }

  /** Malformed text is an error when the version is wrong and a panic after that. */
  datatype Outcome = Error | Panic | Decoded(rule: Rule)

  function Deserialized(s: string): Outcome {
    if !(SERIALIZED_VERSION <= s) then Error
    else
      match ReadRule(s[|SERIALIZED_VERSION|..])
      case None => Panic
      case Some(r) => Decoded(r)
  }

  class Buffer {
    var data: string

    constructor (data: string)
      ensures this.data == data
    {
      this.data := data;
    }

    method WriteString(s: string)
      modifies this
      ensures data == old(data) + s
    {
      data := data + s;
    }

    /** Reads up to n characters; fails only on an empty buffer. */
    method Read(n: nat) returns (ok: bool, s: string)
      requires n > 0
      modifies this
      ensures ok <==> old(data) != ""
      ensures ok ==> s + data == old(data) && |s| == if n <= |old(data)| then n else |old(data)|
    {
      if data == "" {
        return false, "";
      }
      var k := if n <= |data| then n else |data|;
      s, data := data[..k], data[k..];
      return true, s;
    }

    /** Reads through the first space; without one the caller panics. */
    method ReadString() returns (ok: bool, s: string)
      modifies this
      ensures ok == ReadToken(old(data)).Some?
      ensures ok ==> ReadToken(old(data)) == Some((s, data))
    {
      var i := 0;
      s := "";
      while i < |data| && data[i] != ' '
        invariant 0 <= i <= |data| && s == data[..i] && ' ' !in data[..i]
      {
        s := s + [data[i]];
        i := i + 1;
      }
      ok := i < |data|;
      if ok {
        ReadsToken(s, data[i + 1..]);
        assert data == s + " " + data[i + 1..];
        data := data[i + 1..];
      } else {
        assert data[..i] == data;
      }
    }

    method ReadUint32() returns (ok: bool, n: uint32)
      modifies this
      ensures ok == ReadUint(old(data)).Some?
      ensures ok ==> ReadUint(old(data)) == Some((n, data))
    {
      n := 0;
      var s;
      ok, s := ReadString();
      if ok {
        var parsed := ParseUint(s);
        if parsed.None? {
          return false, 0;
        }
        n := parsed.value;
      }
    }

    method ReadThreeStrings() returns (ok: bool, t: Triple)
      modifies this
      ensures ok == ReadThree(old(data)).Some?
      ensures ok ==> ReadThree(old(data)) == Some((t, data))
    {
      t := Triple("", "", "");
      var a, b, c: string := "", "", "";
      ok, a := ReadString();
      if !ok { return; }
      ok, b := ReadString();
      if !ok { return; }
      ok, c := ReadString();
      if !ok { return; }
      t := Triple(a, b, c);
    }

    method ReadAllStrings() returns (ok: bool, t: Strings)
      modifies this
      ensures ok == ReadStrings(old(data)).Some?
      ensures ok ==> ReadStrings(old(data)) == Some(t)
    {
      var a, b, c, d: Triple;
      ok, a := ReadThreeStrings();
      t := Strings(a, a, a, a);
      if !ok { return; }
      ok, b := ReadThreeStrings();
      if !ok { return; }
      ok, c := ReadThreeStrings();
      if !ok { return; }
      ok, d := ReadThreeStrings();
      if !ok { return; }
      t := Strings(a, b, c, d);
    }
  }

  lemma JoinedAppend(fields: seq<string>, f: string)
    ensures Joined(fields + [f]) == Joined(fields) + (f + " ")
  {
    if fields == [] {
      assert [f][1..] == [];
    } else {
      assert (fields + [f])[1..] == fields[1..] + [f];
      JoinedAppend(fields[1..], f);
    }
  }

  /** Writes field number k when the fields before it are already written. */
  method WriteField(buf: Buffer, s: string, ghost fields: seq<string>, ghost k: nat)
    requires k < |fields| && s == fields[k]
    requires buf.data == SERIALIZED_VERSION + Joined(fields[..k])
    modifies buf
    ensures buf.data == SERIALIZED_VERSION + Joined(fields[..k + 1])
  {
    JoinedAppend(fields[..k], s);
    assert fields[..k + 1] == fields[..k] + [s];
    buf.WriteString(s + " ");
  }

  method WriteNumbers(buf: Buffer, r: Rule, ghost fs: seq<string>)
    requires |fs| == 15 && fs[0] == FormatUint(r.action) && fs[1] == FormatUint(r.clampType)
    requires fs[2] == FormatUint(r.proto) && buf.data == SERIALIZED_VERSION + Joined(fs[..0])
    modifies buf
    ensures buf.data == SERIALIZED_VERSION + Joined(fs[..3])
  {
    WriteField(buf, FormatUint(r.action), fs, 0);
    WriteField(buf, FormatUint(r.clampType), fs, 1);
    WriteField(buf, FormatUint(r.proto), fs, 2);
  }

  method WriteAddresses(buf: Buffer, r: Rule, ghost fs: seq<string>)
    requires |fs| == 15 && fs[3] == r.srcSetName && fs[4] == r.destSetName && fs[5] == r.srcCIDR
    requires fs[6] == r.destCIDR && fs[7] == r.snatCIDR && fs[8] == r.dnatCIDR
    requires buf.data == SERIALIZED_VERSION + Joined(fs[..3])
    modifies buf
    ensures buf.data == SERIALIZED_VERSION + Joined(fs[..9])
  {
    WriteField(buf, r.srcSetName, fs, 3);
    WriteField(buf, r.destSetName, fs, 4);
    WriteField(buf, r.srcCIDR, fs, 5);
    WriteField(buf, r.destCIDR, fs, 6);
    WriteField(buf, r.snatCIDR, fs, 7);
    WriteField(buf, r.dnatCIDR, fs, 8);
  }

  method WriteValues(buf: Buffer, r: Rule, ghost fs: seq<string>)
    requires |fs| == 15 && fs[9] == r.outInterface && fs[10] == r.inInterface && fs[11] == r.dPort
    requires fs[12] == r.targetChain && fs[13] == r.mssValue && fs[14] == r.markValue
    requires buf.data == SERIALIZED_VERSION + Joined(fs[..9])
    modifies buf
    ensures buf.data == SERIALIZED_VERSION + Joined(fs[..15])
  {
    WriteField(buf, r.outInterface, fs, 9);
    WriteField(buf, r.inInterface, fs, 10);
    WriteField(buf, r.dPort, fs, 11);
    WriteField(buf, r.targetChain, fs, 12);
    WriteField(buf, r.mssValue, fs, 13);
    WriteField(buf, r.markValue, fs, 14);
  }

  method SerializeRule(r: Rule) returns (s: string)
    ensures s == Serialized(r)
  {
    var buf := new Buffer("");
    buf.WriteString(SERIALIZED_VERSION);
    WriteNumbers(buf, r, Fields(r));
    WriteAddresses(buf, r, Fields(r));
    WriteValues(buf, r, Fields(r));
    assert Fields(r)[..15] == Fields(r);
    return buf.data;
  }

  method DeserializeRule(s: string) returns (outcome: Outcome)
    ensures outcome == Deserialized(s)
  {
    var buf := new Buffer(s);
    var ok, version := buf.Read(3);
    if !ok {
      return Error;
    }
    if version != SERIALIZED_VERSION {
      return Error;
    }
    assert s == SERIALIZED_VERSION + buf.data && buf.data == s[3..];
    var action, clampType, proto: uint32 := 0, 0, 0;
    var strings;
    ok, action := buf.ReadUint32();
    if !ok { return Panic; }
    ok, clampType := buf.ReadUint32();
    if !ok { return Panic; }
    ok, proto := buf.ReadUint32();
    if !ok { return Panic; }
    ok, strings := buf.ReadAllStrings();
    if !ok { return Panic; }
    return Decoded(RuleOf((action, clampType, proto), strings));
  }

  /** No string of the rule contains the separator. */
  predicate Storable(r: Rule) {
    StringsOf(r).SpaceFree()
  }

  lemma ReadsNumbers(r: Rule)
    ensures ReadNumbers(Joined(Fields(r))) == Some(((r.action, r.clampType, r.proto), Joined(Fields(r)[3..])))
  {
    ReadsNumberFields(Fields(r), r.action, r.clampType, r.proto);
  }

  lemma ReadsNumberFields(fs: seq<string>, a: uint32, b: uint32, c: uint32)
    requires |fs| >= 3 && fs[0] == FormatUint(a) && fs[1] == FormatUint(b) && fs[2] == FormatUint(c)
    ensures ReadNumbers(Joined(fs)) == Some(((a, b, c), Joined(fs[3..])))
  {
    NumberRoundTrip(a);
    NumberRoundTrip(b);
    NumberRoundTrip(c);
    assert fs[0..] == fs;
    ReadsField(fs, 0);
    ReadsField(fs, 1);
    ReadsField(fs, 2);
  }

  lemma ReadsThree(fs: seq<string>, k: nat)
    requires k + 3 <= |fs| && ' ' !in fs[k] && ' ' !in fs[k + 1] && ' ' !in fs[k + 2]
    ensures ReadThree(Joined(fs[k..])) == Some((Triple(fs[k], fs[k + 1], fs[k + 2]), Joined(fs[k + 3..])))
  {
    ReadsField(fs, k);
    ReadsField(fs, k + 1);
    ReadsField(fs, k + 2);
  }

  /** The strings that follow the three numbers. */
  function StringsAt(fs: seq<string>): Strings
    requires |fs| == 15
  {
    Strings(Triple(fs[3], fs[4], fs[5]), Triple(fs[6], fs[7], fs[8]),
            Triple(fs[9], fs[10], fs[11]), Triple(fs[12], fs[13], fs[14]))
  }

  lemma ReadsStrings(fs: seq<string>)
    requires |fs| == 15 && StringsAt(fs).SpaceFree()
    ensures ReadStrings(Joined(fs[3..])) == Some(StringsAt(fs))
  {
    ReadsThree(fs, 3);
    ReadsThree(fs, 6);
    ReadsThree(fs, 9);
    ReadsThree(fs, 12);
  }

  lemma StringsAtFields(r: Rule)
    ensures |Fields(r)| == 15 && StringsAt(Fields(r)) == StringsOf(r)
  {
  }

  lemma ReadsRule(r: Rule)
    ensures ReadRule(Joined(Fields(r))) == Some(r) <==> Storable(r)
  {
    StringsAtFields(r);
    ReadsNumbers(r);
    if Storable(r) {
      ReadsStrings(Fields(r));
    }
  }

  /** Reading undoes writing exactly when no string of the rule contains a space. */
  lemma RoundTrip(r: Rule)
    ensures Deserialized(Serialized(r)) == Decoded(r) <==> Storable(r)
  {
    assert Serialized(r)[3..] == Joined(Fields(r));
    ReadsRule(r);
  }

  // ----- which texts are rules -----

  /** A decimal number of 32 bits. */
  ghost predicate IsNumber(t: string) {
    t != "" && (forall i :: 0 <= i < |t| ==> '0' <= t[i] <= '9') && Value(t) < 0x1_0000_0000
  }

  /** Fifteen fields without spaces, the first three of them numbers. */
  ghost predicate IsRecord(fs: seq<string>) {
    && |fs| == 15 && IsNumber(fs[0]) && IsNumber(fs[1]) && IsNumber(fs[2])
    && forall i :: 0 <= i < |fs| ==> ' ' !in fs[i]
  }

  /** The rule that a record describes, field by field. */
  ghost predicate Describes(fs: seq<string>, r: Rule)
    requires IsRecord(fs)
  {
    && r.action == Value(fs[0]) && r.clampType == Value(fs[1]) && r.proto == Value(fs[2])
    && r.srcSetName == fs[3] && r.destSetName == fs[4] && r.srcCIDR == fs[5] && r.destCIDR == fs[6]
    && r.snatCIDR == fs[7] && r.dnatCIDR == fs[8] && r.outInterface == fs[9] && r.inInterface == fs[10]
    && r.dPort == fs[11] && r.targetChain == fs[12] && r.mssValue == fs[13] && r.markValue == fs[14]
  }

  function Rest(fs: seq<string>, k: nat, tail: string): string
    requires k <= |fs|
  {
    Joined(fs[k..]) + tail
  }

  lemma ReadsNext(fs: seq<string>, k: nat, tail: string)
    requires k < |fs| && ' ' !in fs[k]
    ensures ReadToken(Rest(fs, k, tail)) == Some((fs[k], Rest(fs, k + 1, tail)))
  {
    assert fs[k..][1..] == fs[k + 1..];
    ReadsToken(fs[k], Rest(fs, k + 1, tail));
    assert Rest(fs, k, tail) == fs[k] + " " + Rest(fs, k + 1, tail);
  }

  lemma ReadsNextThree(fs: seq<string>, k: nat, tail: string)
    requires k + 3 <= |fs| && ' ' !in fs[k] && ' ' !in fs[k + 1] && ' ' !in fs[k + 2]
    ensures ReadThree(Rest(fs, k, tail)) == Some((Triple(fs[k], fs[k + 1], fs[k + 2]), Rest(fs, k + 3, tail)))
  {
    ReadsNext(fs, k, tail);
    ReadsNext(fs, k + 1, tail);
    ReadsNext(fs, k + 2, tail);
  }

  lemma ReadsAllStrings(fs: seq<string>, tail: string)
    requires |fs| == 15 && forall i :: 0 <= i < |fs| ==> ' ' !in fs[i]
    ensures ReadStrings(Rest(fs, 3, tail)) == Some(StringsAt(fs))
  {
    ReadsNextThree(fs, 3, tail);
    ReadsNextThree(fs, 6, tail);
    ReadsNextThree(fs, 9, tail);
    ReadsNextThree(fs, 12, tail);
  }

  lemma ReadsNextNumber(fs: seq<string>, k: nat, tail: string)
    requires k < |fs| && IsNumber(fs[k]) && ' ' !in fs[k]
    ensures ReadUint(Rest(fs, k, tail)) == Some((Value(fs[k]) as uint32, Rest(fs, k + 1, tail)))
  {
    ReadsNext(fs, k, tail);
  }

  lemma ReadsThreeNumbers(fs: seq<string>, tail: string)
    requires |fs| == 15 && IsNumber(fs[0]) && IsNumber(fs[1]) && IsNumber(fs[2])
    requires ' ' !in fs[0] && ' ' !in fs[1] && ' ' !in fs[2]
    ensures ReadNumbers(Rest(fs, 0, tail)) == Some(((Value(fs[0]), Value(fs[1]), Value(fs[2])), Rest(fs, 3, tail)))
  {
    ReadsNextNumber(fs, 0, tail);
    ReadsNextNumber(fs, 1, tail);
    ReadsNextNumber(fs, 2, tail);
  }

  /** A record is read, whatever follows it. */
  lemma RecordIsRead(fs: seq<string>, tail: string)
    requires IsRecord(fs)
    ensures ReadRule(Rest(fs, 0, tail)) == Some(RuleOf((Value(fs[0]), Value(fs[1]), Value(fs[2])), StringsAt(fs)))
  {
    ReadsThreeNumbers(fs, tail);
    ReadsAllStrings(fs, tail);
  }

  lemma RuleOfDescribes(fs: seq<string>, r: Rule)
    requires IsRecord(fs) && r == RuleOf((Value(fs[0]), Value(fs[1]), Value(fs[2])), StringsAt(fs))
    ensures Describes(fs, r)
  {
  }

  ghost predicate NoSpaces(fs: seq<string>) {
    forall i :: 0 <= i < |fs| ==> ' ' !in fs[i]
  }

  lemma TokenTaken(s: string, fs: seq<string>, rest: string, token: string, rest': string)
    requires s == Joined(fs) + rest && rest == token + " " + rest' && NoSpaces(fs) && ' ' !in token
    ensures s == Joined(fs + [token]) + rest' && NoSpaces(fs + [token])
  {
    JoinedAppend(fs, token);
  }

  lemma ThreeTaken(s: string, fs: seq<string>, rest: string) returns (fs': seq<string>)
    requires s == Joined(fs) + rest && NoSpaces(fs) && ReadThree(rest).Some?
    ensures |fs'| == |fs| + 3 && fs <= fs' && NoSpaces(fs') && s == Joined(fs') + ReadThree(rest).value.1
  {
    var (a, s1) := ReadToken(rest).value;
    var (b, s2) := ReadToken(s1).value;
    var (c, s3) := ReadToken(s2).value;
    TokenTaken(s, fs, rest, a, s1);
    TokenTaken(s, fs + [a], s1, b, s2);
    TokenTaken(s, fs + [a] + [b], s2, c, s3);
    fs' := fs + [a] + [b] + [c];
  }

  lemma TwelveTaken(s: string, fs: seq<string>, rest: string) returns (fs': seq<string>, tail: string)
    requires s == Joined(fs) + rest && NoSpaces(fs) && ReadStrings(rest).Some?
    ensures |fs'| == |fs| + 12 && fs <= fs' && NoSpaces(fs') && s == Joined(fs') + tail
  {
    var s1 := ReadThree(rest).value.1;
    var s2 := ReadThree(s1).value.1;
    var s3 := ReadThree(s2).value.1;
    var f1 := ThreeTaken(s, fs, rest);
    var f2 := ThreeTaken(s, f1, s1);
    var f3 := ThreeTaken(s, f2, s2);
    fs' := ThreeTaken(s, f3, s3);
    tail := ReadThree(s3).value.1;
  }

  lemma NumberTaken(s: string, fs: seq<string>, rest: string) returns (t: string)
    requires s == Joined(fs) + rest && NoSpaces(fs) && ReadUint(rest).Some?
    ensures IsNumber(t) && NoSpaces(fs + [t]) && s == Joined(fs + [t]) + ReadUint(rest).value.1
  {
    var (token, rest') := ReadToken(rest).value;
    TokenTaken(s, fs, rest, token, rest');
    t := token;
  }

  lemma NumbersTaken(s: string) returns (fs: seq<string>)
    requires ReadNumbers(s).Some?
    ensures |fs| == 3 && IsNumber(fs[0]) && IsNumber(fs[1]) && IsNumber(fs[2]) && NoSpaces(fs)
    ensures s == Joined(fs) + ReadNumbers(s).value.1
  {
    var s1 := ReadUint(s).value.1;
    var s2 := ReadUint(s1).value.1;
    assert s == Joined([]) + s;
    var a := NumberTaken(s, [], s);
    var b := NumberTaken(s, [] + [a], s1);
    var c := NumberTaken(s, [] + [a] + [b], s2);
    fs := [] + [a] + [b] + [c];
  }

  lemma RecordWasThere(s: string) returns (fs: seq<string>, tail: string)
    requires ReadRule(s).Some?
    ensures IsRecord(fs) && s == Joined(fs) + tail
  {
    var numbers := NumbersTaken(s);
    fs, tail := TwelveTaken(s, numbers, ReadNumbers(s).value.1);
    assert fs[0] == numbers[0] && fs[1] == numbers[1] && fs[2] == numbers[2];
  }

  /** The text is a version and a record, and perhaps more. */
  ghost predicate Holds(s: string, fs: seq<string>, tail: string) {
    IsRecord(fs) && s == "1.0" + (Joined(fs) + tail)
  }

  /** A text is a rule exactly when it is the version followed by a record, and it is the rule described by
      that record. Another version is an error, and anything else after the version is a panic. */
  lemma DecodedIff(s: string)
    ensures Deserialized(s) == Error <==> !("1.0" <= s)
    ensures Deserialized(s).Decoded? <==> exists fs, tail :: Holds(s, fs, tail)
    ensures forall fs, tail :: Holds(s, fs, tail) ==> Deserialized(s).Decoded? && Describes(fs, Deserialized(s).rule)
  {
    if Deserialized(s).Decoded? {
      var fs, tail := RecordWasThere(s[3..]);
      assert Holds(s, fs, tail);
    }
    forall fs, tail | Holds(s, fs, tail) ensures Deserialized(s).Decoded? && Describes(fs, Deserialized(s).rule) {
      HeldIsDecoded(s, fs, tail);
    }
  }

  lemma HeldIsDecoded(s: string, fs: seq<string>, tail: string)
    requires Holds(s, fs, tail)
    ensures Deserialized(s).Decoded? && Describes(fs, Deserialized(s).rule)
  {
    RecordIsRead(fs, tail);
    assert fs[0..] == fs && s[3..] == Rest(fs, 0, tail);
    RuleOfDescribes(fs, RuleOf((Value(fs[0]), Value(fs[1]), Value(fs[2])), StringsAt(fs)));
  }

  /** A storable rule is told apart by its text from every other storable rule. */
  lemma SerializationIsInjective(a: Rule, b: Rule)
    requires Storable(a) && Storable(b)
    ensures Serialized(a) == Serialized(b) <==> a == b
  {
    RoundTrip(a);
    RoundTrip(b);
  }

  lemma StoredText(r: Rule)
    requires Storable(r)
    ensures Serialized(r) != "" && Deserialized(Serialized(r)) == Decoded(r)
  {
    RoundTrip(r);
  }

  // ----- the chain -----

  datatype KernelRule = KernelRule(handle: nat, comment: Option<string>)

  /** The comment of a kernel rule, as the driver reads it: none reads as the empty text. */
  function Text(k: KernelRule): string {
    if k.comment.Some? then k.comment.value else ""
  }

  function Texts(chain: seq<KernelRule>): (texts: seq<string>)
    ensures |texts| == |chain| && forall i :: 0 <= i < |chain| ==> texts[i] == Text(chain[i])
  {
    seq(|chain|, i requires 0 <= i < |chain| => Text(chain[i]))
  }

  /** Handles are unique and below the next one the kernel gives out. */
  ghost predicate UniqueHandles(chain: seq<KernelRule>, nextHandle: nat) {
    && (forall i :: 0 <= i < |chain| ==> chain[i].handle < nextHandle)
    && (forall i, j :: 0 <= i < j < |chain| ==> chain[i].handle != chain[j].handle)
  }

  lemma HandlesInsertion(chain: seq<KernelRule>, nextHandle: nat, i: nat, k: KernelRule)
    requires UniqueHandles(chain, nextHandle) && i <= |chain| && k.handle == nextHandle
    ensures UniqueHandles(InsertAt(chain, i, k), nextHandle + 1)
    ensures Texts(InsertAt(chain, i, k)) == InsertAt(Texts(chain), i, Text(k))
  {
  }

  lemma HandlesRemoval(chain: seq<KernelRule>, nextHandle: nat, i: nat)
    requires UniqueHandles(chain, nextHandle) && i < |chain|
    ensures UniqueHandles(chain[..i] + chain[i + 1..], nextHandle)
    ensures Texts(chain[..i] + chain[i + 1..]) == Texts(chain)[..i] + Texts(chain)[i + 1..]
  {
  }

  /** What listing a chain gives: its rules, or the error or the panic of the first malformed comment.
      Kernel rules without a comment are skipped. */
  datatype Listing = ListingFails | ListingPanics | Listed(rules: seq<Rule>)

  function ListedWith(before: Listing, text: string, decode: string -> Outcome): Listing {
    if !before.Listed? || text == "" then before
    else
      match decode(text)
      case Error => ListingFails
      case Panic => ListingPanics
      case Decoded(r) => Listed(before.rules + [r])
  }

  function ListingOf(texts: seq<string>, decode: string -> Outcome): Listing {
    if texts == [] then Listed([])
    else ListedWith(ListingOf(texts[..|texts| - 1], decode), texts[|texts| - 1], decode)
  }

  lemma ListingNext(texts: seq<string>, i: nat, decode: string -> Outcome)
    requires i < |texts|
    ensures ListingOf(texts[..i + 1], decode) == ListedWith(ListingOf(texts[..i], decode), texts[i], decode)
  {
    assert texts[..i + 1][..i] == texts[..i];
  }

  lemma {:induction false} ListingStops(texts: seq<string>, i: nat, decode: string -> Outcome)
    requires i <= |texts| && !ListingOf(texts[..i], decode).Listed?
    ensures ListingOf(texts, decode) == ListingOf(texts[..i], decode)
  {
    if i < |texts| {
      var n := |texts| - 1;
      assert texts[..n][..i] == texts[..i];
      ListingStops(texts[..n], i, decode);
    } else {
      assert texts[..i] == texts;
    }
  }

  /** The first i comments are rules or empty. */
  ghost predicate AllRules(texts: seq<string>, i: nat, decode: string -> Outcome)
    requires i <= |texts|
  {
    forall j :: 0 <= j < i ==> texts[j] == "" || decode(texts[j]).Decoded?
  }

  /** Comment i is the first that is not a rule. */
  ghost predicate IsFirstBad(texts: seq<string>, i: int, decode: string -> Outcome) {
    0 <= i < |texts| && AllRules(texts, i, decode) && texts[i] != "" && !decode(texts[i]).Decoded?
  }

  lemma {:induction false} AllRulesAreListed(texts: seq<string>, i: nat, decode: string -> Outcome)
    requires i <= |texts| && AllRules(texts, i, decode)
    ensures ListingOf(texts[..i], decode).Listed?
  {
    if i > 0 {
      AllRulesAreListed(texts, i - 1, decode);
      ListingNext(texts, i - 1, decode);
    }
  }

  lemma BadEndsListing(texts: seq<string>, i: nat, decode: string -> Outcome)
    requires IsFirstBad(texts, i, decode)
    ensures ListingOf(texts, decode) == if decode(texts[i]) == Error then ListingFails else ListingPanics
  {
    AllRulesAreListed(texts, i, decode);
    ListingNext(texts, i, decode);
    ListingStops(texts, i + 1, decode);
  }

  lemma {:induction false} FirstBad(texts: seq<string>, n: nat, decode: string -> Outcome) returns (i: nat)
    requires n <= |texts| && !AllRules(texts, n, decode)
    ensures IsFirstBad(texts, i, decode)
  {
    if AllRules(texts, n - 1, decode) {
      i := n - 1;
    } else {
      i := FirstBad(texts, n - 1, decode);
    }
  }

  /** Listing stops at the first comment that is not a rule, with an error or a panic as that one gives. */
  lemma ListingStopsIff(texts: seq<string>, decode: string -> Outcome)
    ensures ListingOf(texts, decode).Listed? <==> AllRules(texts, |texts|, decode)
    ensures ListingOf(texts, decode) == ListingFails <==>
      exists i :: IsFirstBad(texts, i, decode) && decode(texts[i]) == Error
    ensures ListingOf(texts, decode) == ListingPanics <==>
      exists i :: IsFirstBad(texts, i, decode) && decode(texts[i]) == Panic
  {
    if AllRules(texts, |texts|, decode) {
      AllRulesAreListed(texts, |texts|, decode);
      assert texts[..|texts|] == texts;
    } else {
      var i := FirstBad(texts, |texts|, decode);
      BadEndsListing(texts, i, decode);
    }
  }

  /** The chain without the kernel rules that carry no comment. */
  function Commented(texts: seq<string>): seq<string> {
    if texts == [] then []
    else
      var n := |texts| - 1;
      if texts[n] == "" then Commented(texts[..n]) else Commented(texts[..n]) + [texts[n]]
  }

  /** Where every comment decodes to the rule it was made for, listing gives back the rules, whatever rules
      without comments are in between. */
  lemma {:induction false} ListingDecodes(texts: seq<string>, rules: seq<Rule>, encode: Rule -> string,
                                          decode: string -> Outcome)
    requires Commented(texts) == Mapped(rules, encode)
    requires forall i :: 0 <= i < |rules| ==> decode(encode(rules[i])) == Decoded(rules[i])
    ensures ListingOf(texts, decode) == Listed(rules)
  {
    if texts != [] {
      var n := |texts| - 1;
      if texts[n] == "" {
        ListingDecodes(texts[..n], rules, encode, decode);
      } else {
        assert |rules| == |Commented(texts)| > 0;
        var m := |rules| - 1;
        assert Mapped(rules, encode) == Mapped(rules[..m], encode) + [encode(rules[m])];
        SameEnds(Commented(texts[..n]), texts[n], Mapped(rules[..m], encode), encode(rules[m]));
        ListingDecodes(texts[..n], rules[..m], encode, decode);
        assert rules[..m] + [rules[m]] == rules;
      }
    }
  }

  lemma SameEnds<T>(a: seq<T>, x: T, b: seq<T>, y: T)
    requires a + [x] == b + [y]
    ensures a == b && x == y
  {
    assert (a + [x])[|a|] == x && (b + [y])[|b|] == y;
    assert (a + [x])[..|a|] == a && (b + [y])[..|b|] == b;
  }

  /** How a transaction ends. A rule to be deleted that is not found was deleted by somebody else since the
      chain was listed. */
  datatype Transaction = Committed | NotFound | Failed

  /** The driver over any chain: kernel rules may have been put there by others, with any comment or none.
      `lists` tells whether the kernel lists the chain. */
  class Driver {
    var chain: seq<KernelRule>
    var nextHandle: nat

    ghost predicate Valid()
      reads this
    {
      UniqueHandles(chain, nextHandle)
    }

    constructor (chain: seq<KernelRule>, nextHandle: nat)
      requires UniqueHandles(chain, nextHandle)
      ensures Valid() && this.chain == chain
    {
      this.chain, this.nextHandle := chain, nextHandle;
    }

    /** The first kernel rule whose comment is the text of r. */
    method GetRuleFromList(r: Rule, lists: bool) returns (ok: bool, found: bool, index: nat)
      ensures ok == lists
      ensures found <==> lists && Serialized(r) in Texts(chain)
      ensures found ==>
        index < |chain| && Texts(chain)[index] == Serialized(r) && Serialized(r) !in Texts(chain)[..index]
    {
      ok, found, index := lists, false, 0;
      if !lists {
        return;
      }
      for i := 0 to |chain|
        invariant forall j :: 0 <= j < i ==> Texts(chain)[j] != Serialized(r)
      {
        var text := SerializeRule(r);
        if text == Text(chain[i]) {
          return true, true, i;
        }
      }
    }

    /** A transaction that deletes by handle. Where the rule is not found it is gone all the same. */
    method DeleteHandle(handle: nat, outcome: Transaction, ghost index: nat) returns (ok: bool)
      requires Valid() && index < |chain| && chain[index].handle == handle
      modifies this
      ensures Valid() && ok == !outcome.Failed?
      ensures Texts(chain) == old(if ok then Texts(chain)[..index] + Texts(chain)[index + 1..] else Texts(chain))
    {
      if outcome.Failed? {
        return false;
      }
      var i := 0;
      while chain[i].handle != handle
        invariant 0 <= i <= index
        decreases index - i
      {
        i := i + 1;
      }
      assert i == index;
      HandlesRemoval(chain, nextHandle, i);
      chain := chain[..i] + chain[i + 1..];
      return true;
    }

    method Delete(r: Rule, lists: bool, outcome: Transaction) returns (ok: bool)
      requires Valid()
      modifies this
      ensures Valid() && ok == (lists && (Serialized(r) !in old(Texts(chain)) || !outcome.Failed?))
      ensures Texts(chain) == if ok then Applied(old(Texts(chain)), DeleteFirst(Serialized(r))) else old(Texts(chain))
    {
      var found, index;
      ok, found, index := GetRuleFromList(r, lists);
      if !ok {
        return;
      }
      if !found {
        RemoveAbsent(Texts(chain), Serialized(r));
        return;
      }
      RemoveAtFirst(Texts(chain), Serialized(r), index);
      ok := DeleteHandle(chain[index].handle, outcome, index);
    }

    method List(lists: bool) returns (listing: Listing)
      ensures listing == if lists then ListingOf(Texts(chain), Deserialized) else ListingFails
    {
      if !lists {
        return ListingFails;
      }
      listing := Listed([]);
      ghost var texts := Texts(chain);
      for i := 0 to |chain|
        invariant listing.Listed? && listing == ListingOf(texts[..i], Deserialized)
      {
        ListingNext(texts, i, Deserialized);
        if Text(chain[i]) != "" {
          var outcome := DeserializeRule(chain[i].comment.value);
          match outcome
          case Error =>
            ListingStops(texts, i + 1, Deserialized);
            return ListingFails;
          case Panic =>
            ListingStops(texts, i + 1, Deserialized);
            return ListingPanics;
          case Decoded(rule) =>
            listing := Listed(listing.rules + [rule]);
        }
      }
      assert texts[..|chain|] == texts;
    }

    /** Position 1 prepends; a later position adds after the rule before it, which must exist; any
        other position appends. */
    method InsertRuleAtPosition(r: Rule, position: int, outcome: Transaction) returns (ok: bool)
      requires Valid()
      modifies this
      ensures Valid() && ok == (outcome.Committed? && position <= |old(chain)| + 1)
      ensures Texts(chain) ==
        if ok then Applied(old(Texts(chain)), InsertOrAppend(Serialized(r), position)) else old(Texts(chain))
    {
      if !outcome.Committed? {
        return false;
      }
      var text := SerializeRule(r);
      var kernelRule := KernelRule(nextHandle, Some(text));
      if position == 1 {
        InsertAtEnds(chain, kernelRule);
        Inserted([kernelRule] + chain, 0, kernelRule);
      } else if position > 1 {
        var index := position - 2;
        if index >= |chain| {
          return false;
        }
        Inserted(chain[..index + 1] + [kernelRule] + chain[index + 1..], index + 1, kernelRule);
      } else {
        InsertAtEnds(chain, kernelRule);
        InsertAtEnds(Texts(chain), text);
        Inserted(chain + [kernelRule], |chain|, kernelRule);
      }
      return true;
    }

    /** The kernel puts the rule where the transaction says. */
    method Inserted(changed: seq<KernelRule>, ghost at: nat, kernelRule: KernelRule)
      requires Valid() && at <= |chain| && kernelRule.handle == nextHandle
      requires changed == InsertAt(chain, at, kernelRule)
      modifies this
      ensures Valid() && Texts(chain) == InsertAt(old(Texts(chain)), at, Text(kernelRule))
    {
      HandlesInsertion(chain, nextHandle, at, kernelRule);
      chain := changed;
      nextHandle := nextHandle + 1;
    }

    method AppendUnique(r: Rule, lists: bool, outcome: Transaction) returns (ok: bool)
      requires Valid()
      modifies this
      ensures Valid() && ok == (lists && (Serialized(r) in old(Texts(chain)) || outcome.Committed?))
      ensures Texts(chain) ==
        if ok then Applied(old(Texts(chain)), Operation.AppendUnique(Serialized(r))) else old(Texts(chain))
    {
      var found, index;
      ok, found, index := GetRuleFromList(r, lists);
      if !ok || found {
        return;
      }
      ok := InsertRuleAtPosition(r, -1, outcome);
    }
  }

  // ----- the chain as a plain sequence of rules -----

  lemma TextsTellRulesApart()
    ensures TellsApart(Serialized, Storable)
  {
    forall a, b | Storable(a) && Storable(b) && Serialized(a) == Serialized(b) ensures a == b {
      SerializationIsInjective(a, b);
    }
  }

  /** Over every run of storable rules the driver's chain behaves as the plain sequence of rules: each
      deletion removes the first equal rule, each insertion goes to its 1-based position. */
  lemma RunsRefine(rules: seq<Rule>, ops: seq<Operation<Rule>>)
    requires All(rules, Storable) && forall i :: 0 <= i < |ops| ==> Storable(ops[i].r)
    ensures var onTexts := Mapped(ops, (op: Operation<Rule>) => MappedOperation(op, Serialized));
      AllApplied(Mapped(rules, Serialized), onTexts) == Mapped(AllApplied(rules, ops), Serialized)
    ensures All(AllApplied(rules, ops), Storable)
  {
    TextsTellRulesApart();
    RunsMap(rules, ops, Serialized, Storable);
  }

  /** And listing it, whatever rules without comments others put in between, gives back the rules. */
  lemma ListingRefines(texts: seq<string>, rules: seq<Rule>)
    requires All(rules, Storable) && Commented(texts) == Mapped(rules, Serialized)
    ensures ListingOf(texts, Deserialized) == Listed(rules)
  {
    forall i | 0 <= i < |rules| ensures Deserialized(Serialized(rules[i])) == Decoded(rules[i]) {
      StoredText(rules[i]);
    }
    ListingDecodes(texts, rules, Serialized, Deserialized);
  }

  lemma InsertAtEnds<T>(s: seq<T>, x: T)
    ensures InsertAt(s, 0, x) == [x] + s && InsertAt(s, |s|, x) == s + [x]
  {
    assert s[..|s|] == s;
  }

  lemma {:induction false} RemoveAtFirst<T>(c: seq<T>, r: T, i: nat)
    requires i < |c| && c[i] == r && r !in c[..i]
    ensures RemoveFirst(c, r) == c[..i] + c[i + 1..]
  {
    if i > 0 {
      assert c[1..][..i - 1] == c[1..i];
      RemoveAtFirst(c[1..], r, i - 1);
      assert c[1..][i..] == c[i + 1..];
    }
  }
}
