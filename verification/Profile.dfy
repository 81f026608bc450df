/** The steps of a transaction profile. A profile is a run of steps with nothing between them, and a
    step does not say how long it is: every step has to be read exactly, or all that follows is lost. */
module Profile {
  import opened Wrappers
  import opened Bytes
  import opened Codec
  import opened Fields
  import IpText
  import Records

  datatype StepBase = StepBase(parent: I32, index: I32, startTime: I64, startCpu: I32)

  datatype ProfileStep =
    | Method(base: StepBase, hash: I32, elapsed: I32, cputime: I32)
    | Sql(base: StepBase, hash: I32, param: Text, elapsed: I32, error: I32, updated: I32)
    | ApiCall(base: StepBase, hash: I32, elapsed: I32, error: I32, txid: I64, address: Text)
    | Message(base: StepBase, message: Text, hash: I32)
    | Socket(base: StepBase, ipaddr: string, port: I32, elapsed: I32, error: I32)
    | ThreadCall(base: StepBase, txid: I64, hash: I32, elapsed: I32, threaded: bool)
    | Unknown(stepType: nat, maybeBase: Option<StepBase>)

  // Layouts

  const BASE: seq<Kind> := [KDecimal, KDecimal, KDecimal, KDecimal]

  /** The fields of the summary steps, which have no base. */
  function SummaryLayout(t: nat): Option<seq<Kind>> {
    match t
    case 99 => Some([KText, KDecimal])
    case 11 => Some([KDecimal, KDecimal, KDecimal, KDecimal])
    case 21 => Some([KDecimal, KDecimal, KDecimal, KDecimal, KDecimal, KText, KText])
    case 31 => Some([KText, KDecimal])
    case 42 => Some([KBlob, KDecimal, KDecimal, KDecimal, KDecimal])
    case 43 => Some([KDecimal, KDecimal, KDecimal, KDecimal, KDecimal, KSigned(1)])
    case _ => None
  }

  /** The fields both kinds of span steps begin with. */
  const SPAN: seq<Kind> :=
    [KDecimal, KDecimal, KDecimal, KDecimal, KSigned(1), KDecimal, KBlob, KSigned(2), KDecimal, KBlob, KSigned(2),
     KBoolean, KBoolean, KValue, KValue, KValue]

  /** The fields that follow the base. */
  function BodyLayout(t: nat): Option<seq<Kind>> {
    match t
    case 1 => Some([KDecimal, KDecimal, KDecimal])
    case 10 => Some([KDecimal, KDecimal, KDecimal, KDecimal])
    case 2 => Some([KDecimal, KDecimal, KDecimal, KText, KDecimal])
    case 8 => Some([KDecimal, KDecimal, KDecimal, KText, KDecimal, KSigned(1)])
    case 16 => Some([KDecimal, KDecimal, KDecimal, KText, KDecimal, KSigned(1), KDecimal])
    case 3 => Some([KText])
    case 9 => Some([KDecimal, KDecimal, KDecimal])
    case 17 => Some([KDecimal, KDecimal, KDecimal, KText])
    case 6 => Some([KDecimal, KDecimal, KDecimal, KDecimal, KDecimal, KMaybeText])
    case 15 => Some([KDecimal, KDecimal, KDecimal, KDecimal, KDecimal, KMaybeText, KSigned(1)])
    case 5 => Some([KBlob, KDecimal, KDecimal, KDecimal])
    case 13 => Some([KDecimal, KDecimal, KDecimal, KDecimal, KDecimal, KMaybeText])
    case 7 => Some([KDecimal, KDecimal, KDecimal, KDecimal, KDecimal])
    case 14 => Some([KDecimal, KDecimal, KDecimal, KSigned(1)])
    case 12 => Some([KInts, KSigned(8), KText, KText, KSigned(8), KText, KText])
    case 51 => Some(SPAN)
    case 52 => Some(SPAN + [KDecimal, KMaybeText, KSigned(1)])
    case _ => None
  }

  lemma KnownLayouts(t: nat)
    ensures KnownWidths(BASE)
    ensures SummaryLayout(t).Some? ==> KnownWidths(SummaryLayout(t).value)
    ensures BodyLayout(t).Some? ==> KnownWidths(BodyLayout(t).value)
  {
  }

  // Reading

  function BaseOf(fs: seq<Field>): StepBase
    requires |fs| == 4
  {
    StepBase(IntOf(fs[0]), IntOf(fs[1]), LongOf(fs[2]), IntOf(fs[3]))
  }

  /** What is kept of the fields of a step. */
  function StepOf(t: nat, base: StepBase, fs: seq<Field>): ProfileStep
    requires BodyLayout(t).Some? && |fs| == |BodyLayout(t).value|
  {
    match t
    case 1 => Method(base, IntOf(fs[0]), IntOf(fs[1]), IntOf(fs[2]))
    case 10 => Method(base, IntOf(fs[0]), IntOf(fs[1]), IntOf(fs[2]))
    case 2 => Sql(base, IntOf(fs[0]), TextOf(fs[3]), IntOf(fs[1]), IntOf(fs[4]), 0)
    case 8 => Sql(base, IntOf(fs[0]), TextOf(fs[3]), IntOf(fs[1]), IntOf(fs[4]), 0)
    case 16 => Sql(base, IntOf(fs[0]), TextOf(fs[3]), IntOf(fs[1]), IntOf(fs[4]), IntOf(fs[6]))
    case 3 => Message(base, TextOf(fs[0]), 0)
    case 9 => Message(base, [], IntOf(fs[0]))
    case 17 => Message(base, TextOf(fs[3]), IntOf(fs[0]))
    case 6 => ApiCall(base, IntOf(fs[1]), IntOf(fs[2]), IntOf(fs[4]), LongOf(fs[0]), TextOf(fs[5]))
    case 15 => ApiCall(base, IntOf(fs[1]), IntOf(fs[2]), IntOf(fs[4]), LongOf(fs[0]), TextOf(fs[5]))
    case 5 => Socket(base, IpText.BytesToIp(DataOf(fs[0])), IntOf(fs[1]), IntOf(fs[2]), IntOf(fs[3]))
    case 14 => ThreadCall(base, LongOf(fs[0]), IntOf(fs[1]), IntOf(fs[2]), NumberOf(fs[3]) != 0)
    case _ => Unknown(t, Some(base))
  }

  function GetBase(s: Data): Parse<StepBase> {
    KnownLayouts(0);
    var (fs, r) :- GetFields(BASE, s, []);
    Records.FieldsCount(BASE, s, []);
    Ok((BaseOf(fs), r))
  }

  function GetBody(t: nat, base: StepBase, s: Data): Parse<ProfileStep> {
    KnownLayouts(t);
    match BodyLayout(t)
    case None => Err
    case Some(ks) =>
      var (fs, r) :- GetFields(ks, s, []);
      Records.FieldsCount(ks, s, []);
      Ok((StepOf(t, base, fs), r))
  }

  function GetSummary(t: nat, ks: seq<Kind>, s: Data): Parse<ProfileStep>
    requires KnownWidths(ks)
  {
    var (fs, r) :- GetFields(ks, s, []);
    Ok((Unknown(t, None), r))
  }

  function GetStep(s: Data): Parse<ProfileStep> {
    var (t, r) :- GetNat(s, 1);
    KnownLayouts(t);
    match SummaryLayout(t)
    case Some(ks) => GetSummary(t, ks, r)
    case None =>
      var (base, rest) :- GetBase(r);
      GetBody(t, base, rest)
  }

  // Self-delimiting

  lemma BaseExtends(s: Data, b: Data)
    ensures Extends(GetBase(s), GetBase(s + b), b)
    ensures GetBase(s).Ok? ==> |GetBase(s).value.1| <= |s|
  {
    KnownLayouts(0);
    FieldsExtend(BASE, s, [], b);
  }

  lemma BodyExtends(t: nat, base: StepBase, s: Data, b: Data)
    ensures Extends(GetBody(t, base, s), GetBody(t, base, s + b), b)
    ensures GetBody(t, base, s).Ok? ==> |GetBody(t, base, s).value.1| <= |s|
  {
    KnownLayouts(t);
    if BodyLayout(t).Some? {
      FieldsExtend(BodyLayout(t).value, s, [], b);
    }
  }

  lemma SummaryExtends(t: nat, ks: seq<Kind>, s: Data, b: Data)
    requires KnownWidths(ks)
    ensures Extends(GetSummary(t, ks, s), GetSummary(t, ks, s + b), b)
    ensures GetSummary(t, ks, s).Ok? ==> |GetSummary(t, ks, s).value.1| <= |s|
  {
    FieldsExtend(ks, s, [], b);
  }

  /** A step takes at least one byte, and what follows it does not change how it is read. */
  lemma StepExtends(s: Data, b: Data)
    ensures Extends(GetStep(s), GetStep(s + b), b) && Consumes(GetStep(s), s)
  {
    NatExtends(s, b, 1);
    if GetNat(s, 1).Ok? {
      var (t, r) := GetNat(s, 1).value;
      KnownLayouts(t);
      match SummaryLayout(t)
      case Some(ks) => SummaryExtends(t, ks, r, b);
      case None =>
        BaseExtends(r, b);
        if GetBase(r).Ok? {
          var (base, rest) := GetBase(r).value;
          BodyExtends(t, base, rest, b);
        }
    }
  }

  /** Fewer bytes than a step takes are never read as a step. */
  lemma StepCut(s: Data, k: nat)
    requires GetStep(s).Ok? && k < |s| - |GetStep(s).value.1|
    ensures GetStep(s[..k]).Err?
  {
    StepExtends(s[..k], s[k..]);
    assert s[..k] + s[k..] == s;
  }

  // Parsing a profile

  /** All steps up to the end or to the first one that cannot be read, and whether the end was reached. */
  function ParseSteps(s: Data): (seq<ProfileStep>, bool)
    decreases |s|
  {
    if s == [] then ([], true)
    else if GetStep(s).Err? then ([], false)
    else
      StepExtends(s, []);
      var (step, r) := GetStep(s).value;
      var (steps, clean) := ParseSteps(r);
      ([step] + steps, clean)
  }

  lemma ParseFirst(s: Data, step: ProfileStep, r: Data)
    requires GetStep(s) == Ok((step, r))
    ensures |r| < |s| && ParseSteps(s) == ([step] + ParseSteps(r).0, ParseSteps(r).1)
  {
    StepExtends(s, []);
  }

  lemma Prepend(step: ProfileStep, a: seq<ProfileStep>, b: seq<ProfileStep>)
    ensures [step] + (a + b) == [step] + a + b
  {
  }

  /** Parsing is compositional: behind bytes that parse to their end, the rest parses as it would alone. */
  lemma {:induction false} ParseConcat(a: Data, b: Data)
    requires ParseSteps(a).1
    ensures ParseSteps(a + b) == (ParseSteps(a).0 + ParseSteps(b).0, ParseSteps(b).1)
    decreases |a|
  {
    if a == [] {
      assert a + b == b && [] + ParseSteps(b).0 == ParseSteps(b).0;
    } else {
      StepExtends(a, b);
      var (step, r) := GetStep(a).value;
      ParseFirst(a, step, r);
      ParseFirst(a + b, step, r + b);
      ParseConcat(r, b);
      Prepend(step, ParseSteps(r).0, ParseSteps(b).0);
    }
  }

  /** A step of a type no table knows, or cut short at any point, ends the parse: exactly the steps before
      it are kept, whatever comes after. */
  lemma BadStepKeepsTheRest(a: Data, bad: Data)
    requires ParseSteps(a).1 && bad != [] && GetStep(bad).Err?
    ensures ParseSteps(a + bad) == (ParseSteps(a).0, false)
  {
    ParseConcat(a, bad);
    assert ParseSteps(a).0 + [] == ParseSteps(a).0;
  }

  predicate KnownType(t: nat) {
    t in {1, 2, 3, 5, 6, 7, 8, 9, 10, 11, 12, 13, 14, 15, 16, 17, 21, 31, 42, 43, 51, 52, 99}
  }

  lemma KnownTypeHasLayout(t: nat)
    ensures KnownType(t) <==> SummaryLayout(t).Some? || BodyLayout(t).Some?
  {
  }

  lemma UnknownTypeStops(a: Data, t: Byte, rest: Data)
    requires ParseSteps(a).1 && !KnownType(t)
    ensures ParseSteps(a + ([t] + rest)) == (ParseSteps(a).0, false)
  {
    ByteAhead(t, rest);
    KnownTypeHasLayout(t);
    BadStepKeepsTheRest(a, [t] + rest);
  }

  lemma TruncatedStepStops(a: Data, s: Data, k: nat)
    requires ParseSteps(a).1 && GetStep(s).Ok? && 0 < k < |s| - |GetStep(s).value.1|
    ensures ParseSteps(a + s[..k]) == (ParseSteps(a).0, false)
  {
    StepCut(s, k);
    BadStepKeepsTheRest(a, s[..k]);
  }

  /** Cutting any profile anywhere only drops steps from the end: no step is invented or changed. */
  lemma {:induction false} CutKeepsPrefix(s: Data, b: Data)
    ensures ParseSteps(s).0 <= ParseSteps(s + b).0
    decreases |s|
  {
    if s == [] {
    } else if GetStep(s).Ok? {
      StepExtends(s, b);
      var (step, r) := GetStep(s).value;
      ParseFirst(s, step, r);
      ParseFirst(s + b, step, r + b);
      CutKeepsPrefix(r, b);
    }
  }

  // What an agent sends

  /** The fields before the body of a step. */
  datatype SentBase = SentBase(parent: I64, index: I64, startTime: I64, startCpu: I64)

  function PutBase(b: SentBase, rest: Data): Data {
    Joined([PutDecimal(b.parent), PutDecimal(b.index), PutDecimal(b.startTime), PutDecimal(b.startCpu)], rest)
  }

  /** All but the start time is kept in 32 bits. */
  function KeptBase(b: SentBase): StepBase {
    StepBase(Wrap32(b.parent), Wrap32(b.index), b.startTime, Wrap32(b.startCpu))
  }

  /** A step as it is sent: its type, the base unless it is a summary, and its fields. */
  datatype Sent = Summed(stepType: Byte, fields: seq<Spelling>) | Based(stepType: Byte, base: SentBase, fields: seq<Spelling>)

  predicate Sendable(x: Sent) {
    match x
    case Summed(t, fs) => SummaryLayout(t).Some? && AllSpellable(SummaryLayout(t).value, fs)
    case Based(t, _, fs) => SummaryLayout(t).None? && BodyLayout(t).Some? && AllSpellable(BodyLayout(t).value, fs)
  }

  /** A step of a type with a base on the wire, in parts. */
  function StepBytes(t: Byte, b: SentBase, parts: seq<Data>, rest: Data): Data {
    [t] + PutBase(b, Joined(parts, rest))
  }

  /** The bytes of a step, with the rest behind it. */
  function Wire(x: Sent, rest: Data): Data
    requires Sendable(x)
  {
    match x
    case Summed(t, fs) => [t] + Joined(Spelt(SummaryLayout(t).value, fs), rest)
    case Based(t, b, fs) => StepBytes(t, b, Spelt(BodyLayout(t).value, fs), rest)
  }

  /** The step the program shows for it. */
  function Shown(x: Sent): ProfileStep
    requires Sendable(x)
  {
    match x
    case Summed(t, _) => Unknown(t, None)
    case Based(t, b, fs) => StepOf(t, KeptBase(b), FieldsOf(fs))
  }

  lemma SummaryOnWire(t: Byte, fs: seq<Spelling>, rest: Data)
    requires Sendable(Summed(t, fs))
    ensures GetStep(Wire(Summed(t, fs), rest)) == Ok((Shown(Summed(t, fs)), rest))
  {
    KnownLayouts(t);
    var ks := SummaryLayout(t).value;
    ByteAhead(t, Joined(Spelt(ks, fs), rest));
    SpeltRoundTrip(ks, fs, [], rest);
  }

  lemma BaseOnWire(b: SentBase, rest: Data)
    ensures GetBase(PutBase(b, rest)) == Ok((KeptBase(b), rest))
  {
    hide PutDecimal, Wrap32, GetDecimal;
    KnownLayouts(0);
    var fs := [Plain(Number(b.parent)), Plain(Number(b.index)), Plain(Number(b.startTime)), Plain(Number(b.startCpu))];
    assert Spelt(BASE, fs) == [PutDecimal(b.parent), PutDecimal(b.index), PutDecimal(b.startTime), PutDecimal(b.startCpu)];
    SpeltRoundTrip(BASE, fs, [], rest);
    assert [] + FieldsOf(fs) == [Number(b.parent), Number(b.index), Number(b.startTime), Number(b.startCpu)];
  }

  lemma BodyOnWire(t: nat, base: StepBase, fs: seq<Spelling>, rest: Data)
    requires BodyLayout(t).Some? && AllSpellable(BodyLayout(t).value, fs)
    ensures GetBody(t, base, Joined(Spelt(BodyLayout(t).value, fs), rest)) == Ok((StepOf(t, base, FieldsOf(fs)), rest))
  {
    KnownLayouts(t);
    SpeltRoundTrip(BodyLayout(t).value, fs, [], rest);
    assert [] + FieldsOf(fs) == FieldsOf(fs);
  }

  lemma StepOnWire(x: Sent, rest: Data)
    requires Sendable(x)
    ensures GetStep(Wire(x, rest)) == Ok((Shown(x), rest))
  {
    match x
    case Summed(t, fs) => SummaryOnWire(t, fs, rest);
    case Based(t, b, fs) =>
      var body := Joined(Spelt(BodyLayout(t).value, fs), rest);
      KnownLayouts(t);
      ByteAhead(t, PutBase(b, body));
      BaseOnWire(b, body);
      BodyOnWire(t, KeptBase(b), fs, rest);
  }

  predicate AllSendable(xs: seq<Sent>) {
    forall i :: 0 <= i < |xs| ==> Sendable(xs[i])
  }

  function WireAll(xs: seq<Sent>): Data
    requires AllSendable(xs)
  {
    if xs == [] then [] else Wire(xs[0], WireAll(xs[1..]))
  }

  function ShownAll(xs: seq<Sent>): seq<ProfileStep>
    requires AllSendable(xs)
  {
    if xs == [] then [] else [Shown(xs[0])] + ShownAll(xs[1..])
  }

  /** A profile sent as any run of steps of any known types is parsed to its end, and gives each step in its
      place. */
  lemma {:induction false} ProfileOnWire(xs: seq<Sent>)
    requires AllSendable(xs)
    ensures ParseSteps(WireAll(xs)) == (ShownAll(xs), true)
  {
    if xs == [] {
    } else {
      StepOnWire(xs[0], WireAll(xs[1..]));
      ParseFirst(WireAll(xs), Shown(xs[0]), WireAll(xs[1..]));
      ProfileOnWire(xs[1..]);
    }
  }

  // The steps by name, on bytes. The later kinds of a step add to the end of the earlier ones.

  /** A step, and then the steps of the rest. */
  function Before(step: ProfileStep, rest: Data): (seq<ProfileStep>, bool) {
    ([step] + ParseSteps(rest).0, ParseSteps(rest).1)
  }

  lemma NamedStep(t: Byte, b: SentBase, fs: seq<Spelling>, parts: seq<Data>, step: ProfileStep, rest: Data)
    requires Sendable(Based(t, b, fs)) && parts == Spelt(BodyLayout(t).value, fs)
    requires step == Shown(Based(t, b, fs))
    ensures ParseSteps(StepBytes(t, b, parts, rest)) == Before(step, rest)
  {
    StepOnWire(Based(t, b, fs), rest);
    ParseFirst(StepBytes(t, b, parts, rest), step, rest);
  }

  lemma MethodOnWire(b: SentBase, hash: I64, elapsed: I64, cputime: I64, error: I64, rest: Data)
    ensures var step := Method(KeptBase(b), Wrap32(hash), Wrap32(elapsed), Wrap32(cputime));
            var parts := [PutDecimal(hash), PutDecimal(elapsed), PutDecimal(cputime)];
            && ParseSteps(StepBytes(1, b, parts, rest)) == Before(step, rest)
            && ParseSteps(StepBytes(10, b, parts + [PutDecimal(error)], rest)) == Before(step, rest)
  {
    hide ParseSteps, StepBytes, Before, PutDecimal, PutSigned, PutText, PutBlob, Wrap32;
    var step := Method(KeptBase(b), Wrap32(hash), Wrap32(elapsed), Wrap32(cputime));
    var parts := [PutDecimal(hash), PutDecimal(elapsed), PutDecimal(cputime)];
    var fs := [Plain(Number(hash)), Plain(Number(elapsed)), Plain(Number(cputime))];
    NamedStep(1, b, fs, parts, step, rest);
    NamedStep(10, b, fs + [Plain(Number(error))], parts + [PutDecimal(error)], step, rest);
  }

  lemma SqlOnWire(b: SentBase, hash: I64, elapsed: I64, cputime: I64, param: Text, error: I64, xtype: int, updated: I64,
                  rest: Data)
    requires |param| < 0x8000_0000 && -0x80 <= xtype < 0x80
    ensures var step := Sql(KeptBase(b), Wrap32(hash), param, Wrap32(elapsed), Wrap32(error), 0);
            var parts := [PutDecimal(hash), PutDecimal(elapsed), PutDecimal(cputime), PutText(param), PutDecimal(error)];
            && ParseSteps(StepBytes(2, b, parts, rest)) == Before(step, rest)
            && ParseSteps(StepBytes(8, b, parts + [PutSigned(xtype, 1)], rest)) == Before(step, rest)
            && ParseSteps(StepBytes(16, b, parts + [PutSigned(xtype, 1), PutDecimal(updated)], rest)) ==
               Before(step.(updated := Wrap32(updated)), rest)
  {
    hide ParseSteps, StepBytes, Before, PutDecimal, PutSigned, PutText, PutBlob, Wrap32;
    var step := Sql(KeptBase(b), Wrap32(hash), param, Wrap32(elapsed), Wrap32(error), 0);
    var parts := [PutDecimal(hash), PutDecimal(elapsed), PutDecimal(cputime), PutText(param), PutDecimal(error)];
    var fs := [Plain(Number(hash)), Plain(Number(elapsed)), Plain(Number(cputime)), Plain(TextField(param)), Plain(Number(error))];
    NamedStep(2, b, fs, parts, step, rest);
    NamedStep(8, b, fs + [Plain(Number(xtype))], parts + [PutSigned(xtype, 1)], step, rest);
    NamedStep(16, b, fs + [Plain(Number(xtype)), Plain(Number(updated))], parts + [PutSigned(xtype, 1), PutDecimal(updated)],
              step.(updated := Wrap32(updated)), rest);
  }

  lemma MessageOnWire(b: SentBase, hash: I64, text: Text, time: I64, value: I64, rest: Data)
    requires |text| < 0x8000_0000
    ensures var parts := [PutDecimal(hash), PutDecimal(time), PutDecimal(value)];
            && ParseSteps(StepBytes(3, b, [PutText(text)], rest)) == Before(Message(KeptBase(b), text, 0), rest)
            && ParseSteps(StepBytes(9, b, parts, rest)) == Before(Message(KeptBase(b), [], Wrap32(hash)), rest)
            && ParseSteps(StepBytes(17, b, parts + [PutText(text)], rest)) ==
               Before(Message(KeptBase(b), text, Wrap32(hash)), rest)
  {
    hide ParseSteps, StepBytes, Before, PutDecimal, PutSigned, PutText, PutBlob, Wrap32;
    var parts := [PutDecimal(hash), PutDecimal(time), PutDecimal(value)];
    var fs := [Plain(Number(hash)), Plain(Number(time)), Plain(Number(value))];
    NamedStep(3, b, [Plain(TextField(text))], [PutText(text)], Message(KeptBase(b), text, 0), rest);
    NamedStep(9, b, fs, parts, Message(KeptBase(b), [], Wrap32(hash)), rest);
    NamedStep(17, b, fs + [Plain(TextField(text))], parts + [PutText(text)], Message(KeptBase(b), text, Wrap32(hash)), rest);
  }

  /** The address follows the byte before it only if that is 1. */
  lemma ApiCallOnWire(b: SentBase, txid: I64, hash: I64, elapsed: I64, cputime: I64, error: I64,
                      opt: int, address: Text, async: int, rest: Data)
    requires |address| < 0x8000_0000 && -0x80 <= opt < 0x80 && -0x80 <= async < 0x80
    ensures var step := ApiCall(KeptBase(b), Wrap32(hash), Wrap32(elapsed), Wrap32(error), txid, if opt == 1 then address else []);
            var parts := [PutDecimal(txid), PutDecimal(hash), PutDecimal(elapsed), PutDecimal(cputime), PutDecimal(error),
                          PutSigned(opt, 1) + if opt == 1 then PutText(address) else []];
            && ParseSteps(StepBytes(6, b, parts, rest)) == Before(step, rest)
            && ParseSteps(StepBytes(15, b, parts + [PutSigned(async, 1)], rest)) == Before(step, rest)
  {
    hide ParseSteps, StepBytes, Before, PutDecimal, PutSigned, PutText, PutBlob, Wrap32;
    var kept := if opt == 1 then address else [];
    var step := ApiCall(KeptBase(b), Wrap32(hash), Wrap32(elapsed), Wrap32(error), txid, kept);
    var parts := [PutDecimal(txid), PutDecimal(hash), PutDecimal(elapsed), PutDecimal(cputime), PutDecimal(error),
                  PutSigned(opt, 1) + if opt == 1 then PutText(address) else []];
    var fs := [Plain(Number(txid)), Plain(Number(hash)), Plain(Number(elapsed)), Plain(Number(cputime)), Plain(Number(error)),
               Plain(MaybeText(opt, kept))];
    NamedStep(6, b, fs, parts, step, rest);
    NamedStep(15, b, fs + [Plain(Number(async))], parts + [PutSigned(async, 1)], step, rest);
  }

  lemma SocketOnWire(b: SentBase, ip: Data, port: I64, elapsed: I64, error: I64, rest: Data)
    requires |ip| < 0x8000_0000
    ensures ParseSteps(StepBytes(5, b, [PutBlob(ip), PutDecimal(port), PutDecimal(elapsed), PutDecimal(error)], rest)) ==
            Before(Socket(KeptBase(b), IpText.BytesToIp(ip), Wrap32(port), Wrap32(elapsed), Wrap32(error)), rest)
  {
    hide ParseSteps, StepBytes, Before, PutDecimal, PutSigned, PutText, PutBlob, Wrap32;
    NamedStep(5, b, [Plain(BlobField(ip)), Plain(Number(port)), Plain(Number(elapsed)), Plain(Number(error))],
              [PutBlob(ip), PutDecimal(port), PutDecimal(elapsed), PutDecimal(error)],
              Socket(KeptBase(b), IpText.BytesToIp(ip), Wrap32(port), Wrap32(elapsed), Wrap32(error)), rest);
  }

  lemma ThreadCallOnWire(b: SentBase, txid: I64, hash: I64, elapsed: I64, threaded: int, rest: Data)
    requires -0x80 <= threaded < 0x80
    ensures ParseSteps(StepBytes(14, b, [PutDecimal(txid), PutDecimal(hash), PutDecimal(elapsed), PutSigned(threaded, 1)], rest)) ==
            Before(ThreadCall(KeptBase(b), txid, Wrap32(hash), Wrap32(elapsed), threaded != 0), rest)
  {
    hide ParseSteps, StepBytes, Before, PutDecimal, PutSigned, PutText, PutBlob, Wrap32;
    NamedStep(14, b, [Plain(Number(txid)), Plain(Number(hash)), Plain(Number(elapsed)), Plain(Number(threaded))],
              [PutDecimal(txid), PutDecimal(hash), PutDecimal(elapsed), PutSigned(threaded, 1)],
              ThreadCall(KeptBase(b), txid, Wrap32(hash), Wrap32(elapsed), threaded != 0), rest);
  }

  // The reader of steps

  method ReadSummaryStep(r: ScouterReader, t: nat, ks: seq<Kind>) returns (step: Result<ProfileStep>)
    requires r.Valid() && SummaryLayout(t) == Some(ks)
    modifies r
    ensures r.Valid() && KnownWidths(ks) && Did(GetSummary(t, ks, old(r.Rest())), step, r.Rest())
  {
    KnownLayouts(t);
    var fs := ReadFields(r, ks);
    step := if fs.Ok? then Ok(Unknown(t, None)) else Err;
  }

  method ReadStepBase(r: ScouterReader) returns (base: Result<StepBase>)
    requires r.Valid()
    modifies r
    ensures r.Valid() && Did(GetBase(old(r.Rest())), base, r.Rest())
  {
    KnownLayouts(0);
    var fs := ReadFields(r, BASE);
    if fs.Err? {
      return Err;
    }
    Records.FieldsCount(BASE, old(r.Rest()), []);
    base := Ok(BaseOf(fs.value));
  }

  method ReadBody(r: ScouterReader, t: nat, base: StepBase) returns (step: Result<ProfileStep>)
    requires r.Valid()
    modifies r
    ensures r.Valid() && Did(GetBody(t, base, old(r.Rest())), step, r.Rest())
  {
    KnownLayouts(t);
    match BodyLayout(t) {
      case None =>
        step := Err;
      case Some(ks) =>
        var fs := ReadFields(r, ks);
        if fs.Err? {
          return Err;
        }
        Records.FieldsCount(ks, old(r.Rest()), []);
        step := Ok(StepOf(t, base, fs.value));
    }
  }

  method ReadStep(r: ScouterReader) returns (step: Result<ProfileStep>)
    requires r.Valid()
    modifies r
    ensures r.Valid() && Did(GetStep(old(r.Rest())), step, r.Rest())
  {
    var t := r.ReadUnsignedByte();
    if t.Err? {
      return Err;
    }
    match SummaryLayout(t.value) {
      case Some(ks) =>
        step := ReadSummaryStep(r, t.value, ks);
      case None =>
        var base := ReadStepBase(r);
        if base.Err? {
          return Err;
        }
        step := ReadBody(r, t.value, base.value);
    }
  }

  /** Reads steps until nothing is left or one cannot be read. */
  method ParseProfileSteps(blob: Data) returns (steps: seq<ProfileStep>)
    ensures steps == ParseSteps(blob).0
  {
    var r := new ScouterReader(blob);
    steps := [];
    var left := r.Remaining();
    while left > 0
      invariant r.Valid() && left == |r.Rest()|
      invariant steps + ParseSteps(r.Rest()).0 == ParseSteps(blob).0
      decreases left
    {
      ghost var s := r.Rest();
      var step := ReadStep(r);
      if step.Err? {
        assert steps + [] == steps;
        break;
      }
      ParseFirst(s, step.value, r.Rest());
      MoveStep(steps, step.value, ParseSteps(r.Rest()).0);
      steps := steps + [step.value];
      left := r.Remaining();
    }
    assert steps + [] == steps;
  }

  lemma MoveStep(a: seq<ProfileStep>, step: ProfileStep, b: seq<ProfileStep>)
    ensures a + [step] + b == a + ([step] + b)
  {
  }
}
