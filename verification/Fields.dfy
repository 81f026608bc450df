/** Records as lists of wire fields. The packs and the profile steps read and write fixed lists of
    fields; what holds for one field holds for every such list. */
module Fields {
  import opened Wrappers
  import opened Bytes
  import opened Codec
  import Values

  datatype Kind =
    | KDecimal
    | KByte                // one unsigned byte
    | KSigned(width: nat)  // a signed number of fixed width
    | KBoolean
    | KText
    | KBlob
    | KValue               // a typed value
    | KMaybeText           // a signed byte, and a text behind it if it is 1
    | KInts                // a decimal count and that many 4-byte numbers

  datatype Field =
    | Number(n: int)
    | Flag(b: bool)
    | TextField(t: Text)
    | BlobField(data: Data)
    | ValueField(v: Values.Value)
    | MaybeText(tag: int, t: Text)
    | Ints(ns: seq<int>)

  predicate KnownWidth(k: Kind) {
    k.KSigned? ==> k.width in {1, 2, 4, 8}
  }

  function GetField(k: Kind, s: Data): (p: Parse<Field>)
    requires KnownWidth(k)
  {
    match k
    case KDecimal =>
      var (n, r) :- GetDecimal(s);
      Ok((Number(n), r))
    case KByte =>
      var (n, r) :- GetNat(s, 1);
      Ok((Number(n), r))
    case KSigned(w) =>
      var (n, r) :- GetSigned(s, w);
      Ok((Number(n), r))
    case KBoolean =>
      var (b, r) :- GetBoolean(s);
      Ok((Flag(b), r))
    case KText =>
      var (t, r) :- GetText(s);
      Ok((TextField(t), r))
    case KBlob =>
      var (data, r) :- GetBlob(s);
      Ok((BlobField(data), r))
    case KValue =>
      var (v, r) :- Values.GetValue(s);
      Ok((ValueField(v), r))
    case KMaybeText =>
      var (tag, r) :- GetSigned(s, 1);
      if tag == 1 then
        var (t, rest) :- GetText(r);
        Ok((MaybeText(tag, t), rest))
      else Ok((MaybeText(tag, []), r))
    case KInts =>
      var (n, r) :- GetDecimal(s);
      var (ns, rest) :- GetInts(AsUsize(n), r, []);
      Ok((Ints(ns), rest))
  }

  function GetInts(n: nat, s: Data, got: seq<int>): (p: Parse<seq<int>>)
    ensures p.Ok? ==> |p.value.1| <= |s|
    decreases n
  {
    if n == 0 then Ok((got, s))
    else
      var (v, r) :- GetSigned(s, 4);
      GetInts(n - 1, r, got + [v])
  }

  // What a field holds, cut to the width it is kept in

  function NumberOf(f: Field): int {
    if f.Number? then f.n else 0
  }

  function IntOf(f: Field): (v: I32)
    ensures f.Number? && -0x8000_0000 <= f.n < 0x8000_0000 ==> v == f.n
  {
    Wrap32(NumberOf(f))
  }

  function LongOf(f: Field): I64 {
    if f.Number? && -0x8000_0000_0000_0000 <= f.n < 0x8000_0000_0000_0000 then f.n else 0
  }

  function ByteOf(f: Field): Byte {
    if f.Number? && 0 <= f.n < 256 then f.n else 0
  }

  predicate FlagOf(f: Field) {
    f.Flag? && f.b
  }

  function TextOf(f: Field): Text {
    if f.TextField? || f.MaybeText? then f.t else []
  }

  function DataOf(f: Field): Data {
    if f.BlobField? then f.data else []
  }

  ghost predicate KnownWidths(ks: seq<Kind>) {
    forall i :: 0 <= i < |ks| ==> KnownWidth(ks[i])
  }

  /** Reads the fields of a list in order. */
  function GetFields(ks: seq<Kind>, s: Data, got: seq<Field>): Parse<seq<Field>>
    requires KnownWidths(ks)
  {
    if ks == [] then Ok((got, s))
    else
      var (f, r) :- GetField(ks[0], s);
      GetFields(ks[1..], r, got + [f])
  }

  // Writing, for the kinds that have one encoding

  /** The field has the shape of the kind and survives its encoding. */
  predicate Writable(k: Kind, f: Field) {
    match k
    case KDecimal => f.Number? && -0x8000_0000_0000_0000 <= f.n < 0x8000_0000_0000_0000
    case KByte => f.Number? && 0 <= f.n < 256
    case KSigned(w) => f.Number? && FitsWidth(f.n, w)
    case KBoolean => f.Flag?
    case KText => f.TextField? && |f.t| < 0x8000_0000
    case KBlob => f.BlobField? && |f.data| < 0x8000_0000
    case KMaybeText => f.MaybeText? && FitsWidth(f.tag, 1) && |f.t| < 0x8000_0000 && (f.tag != 1 ==> f.t == [])
    case KInts =>
      && f.Ints? && |f.ns| < 0x8000_0000_0000_0000
      && forall i :: 0 <= i < |f.ns| ==> -0x8000_0000 <= f.ns[i] < 0x8000_0000
    case KValue => false
  }

  predicate FitsWidth(n: int, w: nat) {
    || (w == 1 && -0x80 <= n < 0x80)
    || (w == 2 && -0x8000 <= n < 0x8000)
    || (w == 4 && -0x8000_0000 <= n < 0x8000_0000)
    || (w == 8 && -0x8000_0000_0000_0000 <= n < 0x8000_0000_0000_0000)
  }

  function PutField(k: Kind, f: Field): Data
    requires Writable(k, f)
  {
    match k
    case KDecimal => PutDecimal(f.n)
    case KByte => [f.n]
    case KSigned(w) => PutSigned(f.n, w)
    case KBoolean => PutBoolean(f.b)
    case KText => PutText(f.t)
    case KBlob => PutBlob(f.data)
    case KMaybeText => PutSigned(f.tag, 1) + (if f.tag == 1 then PutText(f.t) else [])
    case KInts => PutDecimal(|f.ns|) + PutInts(f.ns)
  }

  function PutInts(ns: seq<int>): Data {
    if ns == [] then [] else PutSigned(ns[0], 4) + PutInts(ns[1..])
  }

  predicate AllWritable(ks: seq<Kind>, fs: seq<Field>) {
    |ks| == |fs| && forall i :: 0 <= i < |ks| ==> Writable(ks[i], fs[i])
  }

  function PutFields(ks: seq<Kind>, fs: seq<Field>): Data
    requires AllWritable(ks, fs)
  {
    if ks == [] then [] else PutField(ks[0], fs[0]) + PutFields(ks[1..], fs[1..])
  }

  lemma FieldRoundTrip(k: Kind, f: Field, tail: Data)
    requires Writable(k, f)
    ensures GetField(k, PutField(k, f) + tail) == Ok((f, tail)) && PutField(k, f) != []
  {
    match k
    case KDecimal => DecimalRoundTrip(f.n, tail);
    case KByte => ByteAhead(f.n, tail);
    case KSigned(w) => Powers(); SignedRoundTrip(f.n, w, tail);
    case KBoolean => BooleanRoundTrip(f.b, tail);
    case KText => TextRoundTrip(f.t, tail);
    case KBlob => BlobRoundTrip(f.data, tail);
    case KMaybeText => MaybeTextRoundTrip(f.tag, f.t, tail);
    case KInts => CountedIntsRoundTrip(f.ns, tail);
  }

  lemma MaybeTextRoundTrip(tag: int, t: Text, tail: Data)
    requires Writable(KMaybeText, MaybeText(tag, t))
    ensures GetField(KMaybeText, PutField(KMaybeText, MaybeText(tag, t)) + tail) == Ok((MaybeText(tag, t), tail))
  {
    Powers();
    var rest := if tag == 1 then PutText(t) else [];
    Regroup(PutSigned(tag, 1), rest, tail);
    SignedRoundTrip(tag, 1, rest + tail);
    if tag == 1 {
      TextRoundTrip(t, tail);
    } else {
      assert rest + tail == tail;
    }
  }

  lemma {:induction false} IntsRoundTrip(ns: seq<int>, got: seq<int>, tail: Data)
    requires forall i :: 0 <= i < |ns| ==> -0x8000_0000 <= ns[i] < 0x8000_0000
    ensures GetInts(|ns|, PutInts(ns) + tail, got) == Ok((got + ns, tail))
  {
    if ns == [] {
      assert PutInts(ns) + tail == tail && got + ns == got;
    } else {
      Powers();
      Regroup(PutSigned(ns[0], 4), PutInts(ns[1..]), tail);
      SignedRoundTrip(ns[0], 4, PutInts(ns[1..]) + tail);
      IntsRoundTrip(ns[1..], got + [ns[0]], tail);
      assert got + [ns[0]] + ns[1..] == got + ns;
    }
  }

  lemma CountedIntsRoundTrip(ns: seq<int>, tail: Data)
    requires Writable(KInts, Ints(ns))
    ensures GetField(KInts, PutField(KInts, Ints(ns)) + tail) == Ok((Ints(ns), tail))
    ensures PutField(KInts, Ints(ns)) != []
  {
    Regroup(PutDecimal(|ns|), PutInts(ns), tail);
    DecimalRoundTrip(|ns|, PutInts(ns) + tail);
    IntsRoundTrip(ns, [], tail);
    assert [] + ns == ns;
  }

  lemma FieldsStep(ks: seq<Kind>, s: Data, f: Field, r: Data, got: seq<Field>)
    requires ks != [] && KnownWidths(ks) && GetField(ks[0], s) == Ok((f, r))
    ensures GetFields(ks, s, got) == GetFields(ks[1..], r, got + [f])
  {
  }

  lemma {:induction false} FieldsRoundTrip(ks: seq<Kind>, fs: seq<Field>, got: seq<Field>, tail: Data)
    requires AllWritable(ks, fs)
    ensures GetFields(ks, PutFields(ks, fs) + tail, got) == Ok((got + fs, tail))
  {
    if ks == [] {
      assert PutFields(ks, fs) + tail == tail && got + fs == got;
    } else {
      var first, rest := PutField(ks[0], fs[0]), PutFields(ks[1..], fs[1..]);
      Regroup(first, rest, tail);
      FieldRoundTrip(ks[0], fs[0], rest + tail);
      FieldsStep(ks, first + (rest + tail), fs[0], rest + tail, got);
      FieldsRoundTrip(ks[1..], fs[1..], got + [fs[0]], tail);
      assert got + [fs[0]] + fs[1..] == got + fs;
    }
  }

  // Spelling: typed values too, with an order chosen for the entries of every map in them

  datatype Spelling = Plain(f: Field) | Planned(p: Values.Plan)

  function FieldOf(x: Spelling): Field {
    match x
    case Plain(f) => f
    case Planned(p) => ValueField(Values.ValueOf(p))
  }

  function FieldsOf(xs: seq<Spelling>): seq<Field> {
    seq(|xs|, i requires 0 <= i < |xs| => FieldOf(xs[i]))
  }

  predicate Spellable(k: Kind, x: Spelling) {
    match x
    case Plain(f) => Writable(k, f)
    case Planned(p) => k == KValue && Values.Good(p)
  }

  predicate AllSpellable(ks: seq<Kind>, xs: seq<Spelling>) {
    |ks| == |xs| && forall i :: 0 <= i < |ks| ==> Spellable(ks[i], xs[i])
  }

  function Spell(k: Kind, x: Spelling): Data
    requires Spellable(k, x)
  {
    match x
    case Plain(f) => PutField(k, f)
    case Planned(p) => Values.Encode(p)
  }

  /** The parts, and then the rest. */
  function Joined(parts: seq<Data>, rest: Data): Data {
    if parts == [] then rest else parts[0] + Joined(parts[1..], rest)
  }

  function Spelt(ks: seq<Kind>, xs: seq<Spelling>): seq<Data>
    requires AllSpellable(ks, xs)
  {
    seq(|ks|, i requires 0 <= i < |ks| => Spell(ks[i], xs[i]))
  }

  lemma SpellingRoundTrip(k: Kind, x: Spelling, tail: Data)
    requires Spellable(k, x)
    ensures GetField(k, Spell(k, x) + tail) == Ok((FieldOf(x), tail))
  {
    match x
    case Plain(f) => FieldRoundTrip(k, f, tail);
    case Planned(p) => Values.PlanRoundTrip(p, tail);
  }

  lemma SpeltTail(ks: seq<Kind>, xs: seq<Spelling>)
    requires ks != [] && AllSpellable(ks, xs)
    ensures Spelt(ks, xs)[1..] == Spelt(ks[1..], xs[1..])
    ensures FieldsOf(xs) == [FieldOf(xs[0])] + FieldsOf(xs[1..])
  {
  }

  /** Fields are read back from their bytes, whatever follows, for every spelling of the values in them. */
  lemma {:induction false} SpeltRoundTrip(ks: seq<Kind>, xs: seq<Spelling>, got: seq<Field>, rest: Data)
    requires AllSpellable(ks, xs) && KnownWidths(ks)
    ensures GetFields(ks, Joined(Spelt(ks, xs), rest), got) == Ok((got + FieldsOf(xs), rest))
  {
    if ks == [] {
      assert got + FieldsOf(xs) == got;
    } else {
      SpeltTail(ks, xs);
      var behind := Joined(Spelt(ks[1..], xs[1..]), rest);
      SpellingRoundTrip(ks[0], xs[0], behind);
      FieldsStep(ks, Joined(Spelt(ks, xs), rest), FieldOf(xs[0]), behind, got);
      SpeltRoundTrip(ks[1..], xs[1..], got + [FieldOf(xs[0])], rest);
      assert got + [FieldOf(xs[0])] + FieldsOf(xs[1..]) == got + FieldsOf(xs);
    }
  }

  // Self-delimiting

  lemma {:induction false} IntsExtend(n: nat, s: Data, got: seq<int>, b: Data)
    ensures Extends(GetInts(n, s, got), GetInts(n, s + b, got), b)
  {
    if n == 0 {
    } else {
      SignedExtends(s, b, 4);
      if GetSigned(s, 4).Ok? {
        var (v, r) := GetSigned(s, 4).value;
        IntsExtend(n - 1, r, got + [v], b);
      }
    }
  }

  lemma FieldExtends(k: Kind, s: Data, b: Data)
    requires KnownWidth(k)
    ensures Extends(GetField(k, s), GetField(k, s + b), b) && Consumes(GetField(k, s), s)
  {
    match k
    case KDecimal => DecimalExtends(s, b);
    case KByte => NatExtends(s, b, 1);
    case KSigned(w) => SignedExtends(s, b, w);
    case KBoolean => BooleanExtends(s, b);
    case KText => TextExtends(s, b);
    case KBlob => BlobExtends(s, b);
    case KValue => Values.ValueExtends(s, b);
    case KMaybeText =>
      SignedExtends(s, b, 1);
      if GetSigned(s, 1).Ok? {
        TextExtends(GetSigned(s, 1).value.1, b);
      }
    case KInts =>
      DecimalExtends(s, b);
      if GetDecimal(s).Ok? {
        var (n, r) := GetDecimal(s).value;
        IntsExtend(AsUsize(n), r, [], b);
      }
  }

  /** More bytes behind a list of fields do not change what is read. */
  lemma {:induction false} FieldsExtend(ks: seq<Kind>, s: Data, got: seq<Field>, b: Data)
    requires KnownWidths(ks)
    ensures Extends(GetFields(ks, s, got), GetFields(ks, s + b, got), b)
    ensures GetFields(ks, s, got).Ok? ==> |GetFields(ks, s, got).value.1| <= |s|
  {
    if ks == [] {
    } else {
      FieldExtends(ks[0], s, b);
      if GetField(ks[0], s).Ok? {
        var (f, r) := GetField(ks[0], s).value;
        FieldsExtend(ks[1..], r, got + [f], b);
      }
    }
  }

  /** A list of fields cut short cannot be read. */
  lemma FieldsCut(ks: seq<Kind>, fs: seq<Field>, cut: nat)
    requires KnownWidths(ks) && AllWritable(ks, fs) && cut < |PutFields(ks, fs)|
    ensures GetFields(ks, PutFields(ks, fs)[..cut], []).Err?
  {
    hide PutFields, GetFields, AllWritable;
    var all := PutFields(ks, fs);
    FieldsExtend(ks, all[..cut], [], all[cut..]);
    FieldsRoundTrip(ks, fs, [], []);
    assert all[..cut] + all[cut..] == all && all + [] == all;
  }

  // The reader and the writer of field lists

  method ReadField(r: ScouterReader, k: Kind) returns (f: Result<Field>)
    requires r.Valid() && KnownWidth(k)
    modifies r
    ensures r.Valid() && Did(GetField(k, old(r.Rest())), f, r.Rest())
  {
    match k {
      case KDecimal =>
        var x := r.ReadDecimal();
        f := if x.Ok? then Ok(Number(x.value)) else Err;
      case KByte =>
        var x := r.ReadUnsignedByte();
        f := if x.Ok? then Ok(Number(x.value)) else Err;
      case KSigned(w) =>
        var x := r.ReadSigned(w);
        f := if x.Ok? then Ok(Number(x.value)) else Err;
      case KBoolean =>
        var x := r.ReadBoolean();
        f := if x.Ok? then Ok(Flag(x.value)) else Err;
      case KText =>
        var x := r.ReadText();
        f := if x.Ok? then Ok(TextField(x.value)) else Err;
      case KBlob =>
        var x := r.ReadBlob();
        f := if x.Ok? then Ok(BlobField(x.value)) else Err;
      case KValue =>
        var x := Values.ReadFrom(r);
        f := if x.Ok? then Ok(ValueField(x.value)) else Err;
      case KMaybeText =>
        var tag := r.ReadSigned(1);
        if tag.Err? {
          return Err;
        }
        if tag.value == 1 {
          var x := r.ReadText();
          f := if x.Ok? then Ok(MaybeText(tag.value, x.value)) else Err;
        } else {
          f := Ok(MaybeText(tag.value, []));
        }
      case KInts =>
        var n := r.ReadDecimal();
        if n.Err? {
          return Err;
        }
        var x := ReadInts(r, AsUsize(n.value));
        f := if x.Ok? then Ok(Ints(x.value)) else Err;
    }
  }

  method ReadInts(r: ScouterReader, n: nat) returns (res: Result<seq<int>>)
    requires r.Valid()
    modifies r
    ensures r.Valid() && Did(GetInts(n, old(r.Rest()), []), res, r.Rest())
  {
    var ns: seq<int> := [];
    for i := 0 to n
      invariant r.Valid()
      invariant GetInts(n, old(r.Rest()), []) == GetInts(n - i, r.Rest(), ns)
    {
      var v := r.ReadSigned(4);
      if v.Err? {
        return Err;
      }
      ns := ns + [v.value];
    }
    res := Ok(ns);
  }

  method ReadFields(r: ScouterReader, ks: seq<Kind>) returns (res: Result<seq<Field>>)
    requires r.Valid() && KnownWidths(ks)
    modifies r
    ensures r.Valid() && Did(GetFields(ks, old(r.Rest()), []), res, r.Rest())
  {
    var fs: seq<Field> := [];
    for i := 0 to |ks|
      invariant r.Valid()
      invariant GetFields(ks, old(r.Rest()), []) == GetFields(ks[i..], r.Rest(), fs)
    {
      var f := ReadField(r, ks[i]);
      if f.Err? {
        return Err;
      }
      fs := fs + [f.value];
    }
    res := Ok(fs);
  }

  /** The kinds that packs are written with. */
  predicate Written(k: Kind) {
    !k.KValue? && !k.KMaybeText? && !k.KInts?
  }

  ghost predicate AllWritten(ks: seq<Kind>) {
    forall i :: 0 <= i < |ks| ==> Written(ks[i])
  }

  method WriteField(w: ScouterWriter, k: Kind, f: Field)
    requires Writable(k, f) && Written(k)
    modifies w
    ensures w.buf == old(w.buf) + PutField(k, f)
  {
    match k {
      case KDecimal => w.WriteDecimal(f.n);
      case KByte => w.WriteByte(f.n);
      case KSigned(width) => w.WriteSigned(f.n, width);
      case KBoolean => w.WriteBoolean(f.b);
      case KText => w.WriteText(f.t);
      case KBlob => w.WriteBlob(f.data);
    }
  }

  lemma NextField(ks: seq<Kind>, fs: seq<Field>, i: nat)
    requires AllWritable(ks, fs) && i < |ks|
    ensures AllWritable(ks[i..], fs[i..]) && AllWritable(ks[i + 1..], fs[i + 1..])
    ensures PutFields(ks[i..], fs[i..]) == PutField(ks[i], fs[i]) + PutFields(ks[i + 1..], fs[i + 1..])
  {
    assert ks[i..][1..] == ks[i + 1..] && fs[i..][1..] == fs[i + 1..];
  }

  method WriteFields(w: ScouterWriter, ks: seq<Kind>, fs: seq<Field>)
    requires AllWritable(ks, fs) && AllWritten(ks)
    modifies w
    ensures w.buf == old(w.buf) + PutFields(ks, fs)
  {
    assert ks[0..] == ks && fs[0..] == fs;
    for i := 0 to |ks|
      invariant AllWritable(ks[i..], fs[i..])
      invariant w.buf + PutFields(ks[i..], fs[i..]) == old(w.buf) + PutFields(ks, fs)
    {
      NextField(ks, fs, i);
      Regroup(w.buf, PutField(ks[i], fs[i]), PutFields(ks[i + 1..], fs[i + 1..]));
      WriteField(w, ks[i], fs[i]);
    }
    assert ks[|ks|..] == [] && w.buf + [] == w.buf;
  }
}
