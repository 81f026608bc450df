/** The recursive value of the wire protocol. */
module Values {
  import opened Wrappers
  import opened Bytes
  import opened Codec

  /** Floating-point numbers are kept as their bits. */
  datatype Value =
    | Null
    | Boolean(b: bool)
    | Decimal(n: I64)
    | Float(bits: I32)
    | Double(bits64: I64)
    | Str(t: Text)
    | Blob(data: Data)
    | List(items: seq<Value>)
    | Map(entries: map<Text, Value>)

  function TypeCode(v: Value): Byte {
    match v
    case Null => 0
    case Boolean(_) => 10
    case Decimal(_) => 20
    case Float(_) => 30
    case Double(_) => 40
    case Str(_) => 50
    case Blob(_) => 60
    case List(_) => 70
    case Map(_) => 80
  }

  // Reading

  function GetValue(s: Data): (p: Parse<Value>)
    ensures p.Ok? ==> |p.value.1| < |s|
    decreases |s|, 0
  {
    var (code, r) :- GetNat(s, 1);
    GetBody(code, r)
  }

  /** The body of a value whose type code has been read. */
  function GetBody(code: nat, s: Data): (p: Parse<Value>)
    ensures p.Ok? ==> |p.value.1| <= |s|
    decreases |s|, 3
  {
    match code
    case 0 => Ok((Null, s))
    case 10 =>
      var (b, r) :- GetBoolean(s);
      Ok((Boolean(b), r))
    case 20 =>
      DecimalExtends(s, []);
      var (n, r) :- GetDecimal(s);
      Ok((Decimal(n), r))
    case 30 =>
      if |s| >= 4 then SignedFits(s[..4], 4); Ok((Float(Signed(BeNat(s[..4]), 4)), s[4..])) else Err
    case 40 =>
      if |s| >= 8 then SignedFits(s[..8], 8); Ok((Double(Signed(BeNat(s[..8]), 8)), s[8..])) else Err
    case 50 =>
      TextExtends(s, []);
      var (t, r) :- GetText(s);
      Ok((Str(t), r))
    case 60 =>
      BlobExtends(s, []);
      var (data, r) :- GetBlob(s);
      Ok((Blob(data), r))
    case 70 =>
      DecimalExtends(s, []);
      var (n, r) :- GetDecimal(s);
      var (items, rest) :- GetItems(AsUsize(n), r, []);
      Ok((List(items), rest))
    case 80 =>
      DecimalExtends(s, []);
      var (n, r) :- GetDecimal(s);
      var (entries, rest) :- GetEntries(AsUsize(n), r, map[]);
      Ok((Map(entries), rest))
    case _ => Err
  }

  function GetItems(n: nat, s: Data, got: seq<Value>): (p: Parse<seq<Value>>)
    ensures p.Ok? ==> |p.value.1| <= |s|
    decreases |s|, 1
  {
    if n == 0 then Ok((got, s))
    else
      var (v, r) :- GetValue(s);
      GetItems(n - 1, r, got + [v])
  }

  function GetEntry(s: Data): (p: Parse<(Text, Value)>)
    ensures p.Ok? ==> |p.value.1| < |s|
    decreases |s|, 1
  {
    TextExtends(s, []);
    var (k, r) :- GetText(s);
    var (v, rest) :- GetValue(r);
    Ok(((k, v), rest))
  }

  /** Entries go into the map in the order they come; a key that comes again replaces the earlier one. */
  function GetEntries(n: nat, s: Data, got: map<Text, Value>): (p: Parse<map<Text, Value>>)
    ensures p.Ok? ==> |p.value.1| <= |s|
    decreases |s|, 2
  {
    if n == 0 then Ok((got, s))
    else
      var (e, r) :- GetEntry(s);
      GetEntries(n - 1, r, got[e.0 := e.1])
  }

  // Writing. A hash map is written in whatever order it enumerates its entries, so what is written is
  // described by a plan: the value with an order chosen for every map in it.

  datatype Plan = Leaf(v: Value) | ListOf(items: seq<Plan>) | MapOf(entries: seq<Entry>)

  datatype Entry = Entry(key: Text, value: Plan)

  function ValueOf(p: Plan): Value {
    match p
    case Leaf(v) => v
    case ListOf(items) => List(ValuesOf(items))
    case MapOf(entries) => Map(MapFrom(entries))
  }

  function ValuesOf(items: seq<Plan>): seq<Value> {
    if items == [] then [] else [ValueOf(items[0])] + ValuesOf(items[1..])
  }

  function MapFrom(entries: seq<Entry>): map<Text, Value> {
    if entries == [] then map[]
    else MapFrom(entries[1..])[entries[0].key := ValueOf(entries[0].value)]
  }

  function Encode(p: Plan): Data
    decreases p, 1
  {
    [TypeCode(ValueOf(p))] + EncodeBody(p)
  }

  function EncodeBody(p: Plan): Data
    decreases p, 0
  {
    match p
    case Leaf(v) => EncodeScalar(v)
    case ListOf(items) => PutCount(|items|) + EncodeItems(items)
    case MapOf(entries) => PutCount(|entries|) + EncodeEntries(entries)
  }

  function EncodeScalar(v: Value): Data {
    match v
    case Boolean(b) => PutBoolean(b)
    case Decimal(n) => PutDecimal(n)
    case Float(bits) => PutSigned(bits, 4)
    case Double(bits) => PutSigned(bits, 8)
    case Str(t) => PutText(t)
    case Blob(data) => PutBlob(data)
    case _ => []
  }

  /** The number of elements as a decimal. */
  function PutCount(n: nat): Data {
    PutDecimal(if n < 0x8000_0000_0000_0000 then n else 0)
  }

  function EncodeItems(items: seq<Plan>): Data {
    if items == [] then [] else Encode(items[0]) + EncodeItems(items[1..])
  }

  function EncodeEntries(entries: seq<Entry>): Data {
    if entries == [] then []
    else PutText(entries[0].key) + Encode(entries[0].value) + EncodeEntries(entries[1..])
  }

  /** Sizes the program can hold and the codec can carry: blobs and texts below 2^31 bytes. A plan lists
      each key of a map once. */
  predicate Good(p: Plan) {
    match p
    case Leaf(v) => Scalar(v)
    case ListOf(items) => |items| < 0x8000_0000_0000_0000 && forall i :: 0 <= i < |items| ==> Good(items[i])
    case MapOf(entries) =>
      && |entries| < 0x8000_0000_0000_0000
      && (forall i :: 0 <= i < |entries| ==> |entries[i].key| < 0x8000_0000 && Good(entries[i].value))
      && (forall i, j :: 0 <= i < j < |entries| ==> entries[i].key != entries[j].key)
  }

  predicate Scalar(v: Value) {
    match v
    case Str(t) => |t| < 0x8000_0000
    case Blob(data) => |data| < 0x8000_0000
    case List(_) => false
    case Map(_) => false
    case _ => true
  }

  predicate Fits(v: Value) {
    match v
    case List(items) => |items| < 0x8000_0000_0000_0000 && forall i :: 0 <= i < |items| ==> Fits(items[i])
    case Map(entries) =>
      |entries| < 0x8000_0000_0000_0000 && forall k :: k in entries ==> |k| < 0x8000_0000 && Fits(entries[k])
    case _ => Scalar(v)
  }

  // Reading undoes writing

  lemma CountRoundTrip(n: nat, tail: Data)
    requires n < 0x8000_0000_0000_0000
    ensures GetDecimal(PutCount(n) + tail) == Ok((n, tail))
  {
    DecimalRoundTrip(n, tail);
  }

  lemma ScalarRoundTrip(v: Value, tail: Data)
    requires Scalar(v)
    ensures GetBody(TypeCode(v), EncodeScalar(v) + tail) == Ok((v, tail))
  {
    hide GetBody;
    match v
    case Boolean(b) => BooleanBody(b, tail);
    case Decimal(n) => DecimalBody(n, tail);
    case Float(bits) => FloatBody(bits, tail);
    case Double(bits) => DoubleBody(bits, tail);
    case Str(t) => StrBody(t, tail);
    case Blob(data) => BlobBody(data, tail);
    case Null => NullBody(tail);
    case List(_) =>
    case Map(_) =>
  }

  lemma NullBody(tail: Data)
    ensures GetBody(0, [] + tail) == Ok((Null, tail))
  {
    assert [] + tail == tail;
  }

  lemma BooleanBody(b: bool, tail: Data)
    ensures GetBody(10, PutBoolean(b) + tail) == Ok((Boolean(b), tail))
  {
    BooleanRoundTrip(b, tail);
  }

  lemma DecimalBody(n: I64, tail: Data)
    ensures GetBody(20, PutDecimal(n) + tail) == Ok((Decimal(n), tail))
  {
    DecimalRoundTrip(n, tail);
  }

  lemma StrBody(t: Text, tail: Data)
    requires |t| < 0x8000_0000
    ensures GetBody(50, PutText(t) + tail) == Ok((Str(t), tail))
  {
    TextRoundTrip(t, tail);
  }

  lemma BlobBody(data: Data, tail: Data)
    requires |data| < 0x8000_0000
    ensures GetBody(60, PutBlob(data) + tail) == Ok((Blob(data), tail))
  {
    BlobRoundTrip(data, tail);
  }

  lemma FloatBody(bits: I32, tail: Data)
    ensures GetBody(30, PutSigned(bits, 4) + tail) == Ok((Float(bits), tail))
  {
    FixedAhead(bits, 4, tail);
  }

  lemma DoubleBody(bits: I64, tail: Data)
    ensures GetBody(40, PutSigned(bits, 8) + tail) == Ok((Double(bits), tail))
  {
    FixedAhead(bits, 8, tail);
  }

  lemma FixedAhead(v: int, n: nat, tail: Data)
    requires (n == 4 && -0x8000_0000 <= v < 0x8000_0000) || (n == 8 && -0x8000_0000_0000_0000 <= v < 0x8000_0000_0000_0000)
    ensures var s := PutSigned(v, n) + tail; |s| >= n && Signed(BeNat(s[..n]), n) == v && s[n..] == tail
  {
    Powers();
    SignedRoundTrip(v, n, tail);
    assert (PutSigned(v, n) + tail)[..n] == PutSigned(v, n);
  }

  /** Every value is read back equal, for every order in which its maps are enumerated, from its written
      bytes followed by anything, and the reader stops exactly where the writer did. */
  lemma {:induction false} PlanRoundTrip(p: Plan, tail: Data)
    requires Good(p)
    ensures GetValue(Encode(p) + tail) == Ok((ValueOf(p), tail))
    decreases p
  {
    var body := EncodeBody(p) + tail;
    assert Encode(p) + tail == [TypeCode(ValueOf(p))] + body;
    ByteAhead(TypeCode(ValueOf(p)), body);
    match p
    case Leaf(v) => ScalarRoundTrip(v, tail);
    case ListOf(items) => ListRoundTrip(items, tail);
    case MapOf(entries) => MapRoundTrip(entries, tail);
  }

  lemma {:induction false} ListRoundTrip(items: seq<Plan>, tail: Data)
    requires Good(ListOf(items))
    ensures GetBody(70, PutCount(|items|) + EncodeItems(items) + tail) == Ok((List(ValuesOf(items)), tail))
    decreases items, 1
  {
    hide GetBody, GetItems, EncodeItems;
    var rest := EncodeItems(items) + tail;
    Regroup(PutCount(|items|), EncodeItems(items), tail);
    CountRoundTrip(|items|, rest);
    ItemsRoundTrip(items, [], tail);
    assert [] + ValuesOf(items) == ValuesOf(items);
    ListBody(PutCount(|items|) + rest, |items|, rest, ValuesOf(items), tail);
  }

  lemma ListBody(s: Data, n: nat, r: Data, vs: seq<Value>, tail: Data)
    requires n < 0x8000_0000_0000_0000 && GetDecimal(s) == Ok((n, r)) && GetItems(n, r, []) == Ok((vs, tail))
    ensures GetBody(70, s) == Ok((List(vs), tail))
  {
  }

  lemma {:induction false} MapRoundTrip(entries: seq<Entry>, tail: Data)
    requires Good(MapOf(entries))
    ensures GetBody(80, PutCount(|entries|) + EncodeEntries(entries) + tail) == Ok((Map(MapFrom(entries)), tail))
    decreases entries, 1
  {
    var rest := EncodeEntries(entries) + tail;
    Regroup(PutCount(|entries|), EncodeEntries(entries), tail);
    CountRoundTrip(|entries|, rest);
    EntriesRoundTrip(entries, map[], tail);
    AddToNothing(MapFrom(entries));
    MapBody(PutCount(|entries|) + rest, |entries|, rest, MapFrom(entries), tail);
  }

  lemma AddToNothing(m: map<Text, Value>)
    ensures map[] + m == m
  {
  }

  lemma MapBody(s: Data, n: nat, r: Data, m: map<Text, Value>, tail: Data)
    requires n < 0x8000_0000_0000_0000 && GetDecimal(s) == Ok((n, r)) && GetEntries(n, r, map[]) == Ok((m, tail))
    ensures GetBody(80, s) == Ok((Map(m), tail))
  {
  }

  lemma ItemsStep(n: nat, s: Data, v: Value, r: Data, got: seq<Value>)
    requires n > 0 && GetValue(s) == Ok((v, r))
    ensures GetItems(n, s, got) == GetItems(n - 1, r, got + [v])
  {
  }

  lemma {:induction false} ItemsRoundTrip(items: seq<Plan>, got: seq<Value>, tail: Data)
    requires forall i :: 0 <= i < |items| ==> Good(items[i])
    ensures GetItems(|items|, EncodeItems(items) + tail, got) == Ok((got + ValuesOf(items), tail))
    decreases items, 0
  {
    if items == [] {
      assert EncodeItems(items) + tail == tail && got + ValuesOf(items) == got;
    } else {
      var rest := EncodeItems(items[1..]) + tail;
      Regroup(Encode(items[0]), EncodeItems(items[1..]), tail);
      PlanRoundTrip(items[0], rest);
      ItemsStep(|items|, Encode(items[0]) + rest, ValueOf(items[0]), rest, got);
      ItemsRoundTrip(items[1..], got + [ValueOf(items[0])], tail);
      assert got + ValuesOf(items) == got + [ValueOf(items[0])] + ValuesOf(items[1..]);
    }
  }

  ghost predicate GoodEntries(entries: seq<Entry>, got: map<Text, Value>) {
    && (forall i :: 0 <= i < |entries| ==> |entries[i].key| < 0x8000_0000 && Good(entries[i].value))
    && (forall i, j :: 0 <= i < j < |entries| ==> entries[i].key != entries[j].key)
    && (forall i :: 0 <= i < |entries| ==> entries[i].key !in got)
  }

  lemma EntryAhead(key: Text, encoded: Data, v: Value, rest: Data)
    requires |key| < 0x8000_0000 && GetValue(encoded + rest) == Ok((v, rest))
    ensures GetEntry(PutText(key) + encoded + rest) == Ok(((key, v), rest))
  {
    Regroup(PutText(key), encoded, rest);
    TextRoundTrip(key, encoded + rest);
  }

  lemma EntriesStep(n: nat, s: Data, e: (Text, Value), r: Data, got: map<Text, Value>)
    requires n > 0 && GetEntry(s) == Ok((e, r))
    ensures GetEntries(n, s, got) == GetEntries(n - 1, r, got[e.0 := e.1])
  {
  }

  lemma GoodTail(entries: seq<Entry>, got: map<Text, Value>, v: Value)
    requires entries != [] && GoodEntries(entries, got)
    ensures GoodEntries(entries[1..], got[entries[0].key := v])
    ensures |entries[0].key| < 0x8000_0000 && Good(entries[0].value)
  {
  }

  lemma {:induction false} EntriesRoundTrip(entries: seq<Entry>, got: map<Text, Value>, tail: Data)
    requires GoodEntries(entries, got)
    ensures GetEntries(|entries|, EncodeEntries(entries) + tail, got) == Ok((got + MapFrom(entries), tail))
    decreases entries, 0
  {
    var s := EncodeEntries(entries) + tail;
    if entries == [] {
      assert s == tail && got + map[] == got;
    } else {
      var e, v, rest := entries[0], ValueOf(entries[0].value), EncodeEntries(entries[1..]) + tail;
      Regroup(PutText(e.key) + Encode(e.value), EncodeEntries(entries[1..]), tail);
      GoodTail(entries, got, v);
      PlanRoundTrip(e.value, rest);
      EntryAhead(e.key, Encode(e.value), v, rest);
      EntriesStep(|entries|, s, (e.key, v), rest, got);
      EntriesRoundTrip(entries[1..], got[e.key := v], tail);
      AddEntry(entries, got);
    }
  }

  lemma AddEntry(entries: seq<Entry>, got: map<Text, Value>)
    requires entries != [] && GoodEntries(entries, got)
    ensures got[entries[0].key := ValueOf(entries[0].value)] + MapFrom(entries[1..]) == got + MapFrom(entries)
  {
    KeyNotAmong(entries[1..], entries[0].key);
  }

  lemma {:induction false} KeyNotAmong(entries: seq<Entry>, key: Text)
    requires forall i :: 0 <= i < |entries| ==> entries[i].key != key
    ensures key !in MapFrom(entries)
  {
    if entries == [] {
    } else {
      KeyNotAmong(entries[1..], key);
    }
  }

  // Self-delimiting

  /** More bytes behind a value do not change what is read. */
  lemma {:induction false} ValueExtends(s: Data, b: Data)
    ensures Extends(GetValue(s), GetValue(s + b), b)
    decreases |s|, 0
  {
    NatExtends(s, b, 1);
    if GetNat(s, 1).Ok? {
      var (code, r) := GetNat(s, 1).value;
      BodyExtends(code, r, b);
    }
  }

  lemma {:induction false} BodyExtends(code: nat, s: Data, b: Data)
    ensures Extends(GetBody(code, s), GetBody(code, s + b), b)
    decreases |s|, 3
  {
    if GetBody(code, s).Ok? {
      match code
      case 10 => BooleanExtends(s, b);
      case 20 => DecimalExtends(s, b);
      case 30 => assert (s + b)[..4] == s[..4] && (s + b)[4..] == s[4..] + b;
      case 40 => assert (s + b)[..8] == s[..8] && (s + b)[8..] == s[8..] + b;
      case 50 => TextExtends(s, b);
      case 60 => BlobExtends(s, b);
      case 70 =>
        DecimalExtends(s, b);
        var (n, r) := GetDecimal(s).value;
        ItemsExtend(AsUsize(n), r, [], b);
      case 80 =>
        DecimalExtends(s, b);
        var (n, r) := GetDecimal(s).value;
        EntriesExtend(AsUsize(n), r, map[], b);
      case _ =>
    }
  }

  lemma {:induction false} ItemsExtend(n: nat, s: Data, got: seq<Value>, b: Data)
    ensures Extends(GetItems(n, s, got), GetItems(n, s + b, got), b)
    decreases |s|, 1
  {
    if n == 0 {
    } else if GetItems(n, s, got).Ok? {
      ValueExtends(s, b);
      var (v, r) := GetValue(s).value;
      ItemsExtend(n - 1, r, got + [v], b);
    }
  }

  lemma {:induction false} EntryExtends(s: Data, b: Data)
    ensures Extends(GetEntry(s), GetEntry(s + b), b)
    decreases |s|, 1
  {
    TextExtends(s, b);
    if GetText(s).Ok? {
      ValueExtends(GetText(s).value.1, b);
    }
  }

  lemma {:induction false} EntriesExtend(n: nat, s: Data, got: map<Text, Value>, b: Data)
    ensures Extends(GetEntries(n, s, got), GetEntries(n, s + b, got), b)
    decreases |s|, 2
  {
    if n == 0 {
    } else if GetEntry(s).Ok? {
      EntryExtends(s, b);
      var (e, r) := GetEntry(s).value;
      EntriesExtend(n - 1, r, got[e.0 := e.1], b);
    }
  }

  // The reader and the writer of values

  method ReadFrom(r: ScouterReader) returns (v: Result<Value>)
    requires r.Valid()
    modifies r
    ensures r.Valid() && Did(GetValue(old(r.Rest())), v, r.Rest())
    decreases |r.Rest()|, 0
  {
    var code := r.ReadUnsignedByte();
    if code.Err? {
      return Err;
    }
    v := ReadBody(r, code.value);
  }

  method ReadBody(r: ScouterReader, code: nat) returns (v: Result<Value>)
    requires r.Valid()
    modifies r
    ensures r.Valid() && Did(GetBody(code, old(r.Rest())), v, r.Rest())
    decreases |r.Rest()|, 3
  {
    ghost var s := r.Rest();
    match code {
      case 0 =>
        v := Ok(Null);
      case 10 =>
        var x := r.ReadBoolean();
        v := if x.Ok? then Ok(Boolean(x.value)) else Err;
      case 20 =>
        var x := r.ReadDecimal();
        v := if x.Ok? then Ok(Decimal(x.value)) else Err;
      case 30 =>
        var x := r.ReadSigned(4);
        if x.Ok? {
          SignedFits(s[..4], 4);
        }
        v := if x.Ok? then Ok(Float(x.value)) else Err;
      case 40 =>
        var x := r.ReadSigned(8);
        if x.Ok? {
          SignedFits(s[..8], 8);
        }
        v := if x.Ok? then Ok(Double(x.value)) else Err;
      case 50 =>
        var x := r.ReadText();
        v := if x.Ok? then Ok(Str(x.value)) else Err;
      case 60 =>
        var x := r.ReadBlob();
        v := if x.Ok? then Ok(Blob(x.value)) else Err;
      case 70 =>
        DecimalExtends(s, []);
        var n := r.ReadDecimal();
        if n.Err? {
          return Err;
        }
        var items := ReadItems(r, AsUsize(n.value));
        v := if items.Ok? then Ok(List(items.value)) else Err;
      case 80 =>
        DecimalExtends(s, []);
        var n := r.ReadDecimal();
        if n.Err? {
          return Err;
        }
        var entries := ReadEntries(r, AsUsize(n.value));
        v := if entries.Ok? then Ok(Map(entries.value)) else Err;
      case _ =>
        v := Err;
    }
  }

  method ReadItems(r: ScouterReader, count: nat) returns (res: Result<seq<Value>>)
    requires r.Valid()
    modifies r
    ensures r.Valid() && Did(GetItems(count, old(r.Rest()), []), res, r.Rest())
    decreases |r.Rest()|, 1
  {
    var items: seq<Value> := [];
    for i := 0 to count
      invariant r.Valid() && |r.Rest()| <= |old(r.Rest())|
      invariant GetItems(count, old(r.Rest()), []) == GetItems(count - i, r.Rest(), items)
    {
      var v := ReadFrom(r);
      if v.Err? {
        return Err;
      }
      items := items + [v.value];
    }
    res := Ok(items);
  }

  method ReadEntry(r: ScouterReader) returns (res: Result<(Text, Value)>)
    requires r.Valid()
    modifies r
    ensures r.Valid() && Did(GetEntry(old(r.Rest())), res, r.Rest())
    decreases |r.Rest()|, 1
  {
    TextExtends(r.Rest(), []);
    var key := r.ReadText();
    if key.Err? {
      return Err;
    }
    var v := ReadFrom(r);
    res := if v.Ok? then Ok((key.value, v.value)) else Err;
  }

  method ReadEntries(r: ScouterReader, count: nat) returns (res: Result<map<Text, Value>>)
    requires r.Valid()
    modifies r
    ensures r.Valid() && Did(GetEntries(count, old(r.Rest()), map[]), res, r.Rest())
    decreases |r.Rest()|, 2
  {
    var entries: map<Text, Value> := map[];
    ghost var all := GetEntries(count, r.Rest(), entries);
    for i := 0 to count
      invariant r.Valid() && |r.Rest()| <= |old(r.Rest())|
      invariant all == GetEntries(count - i, r.Rest(), entries)
    {
      var e := ReadEntry(r);
      if e.Err? {
        return Err;
      }
      entries := entries[e.value.0 := e.value.1];
    }
    res := Ok(entries);
  }

  lemma {:induction false} ItemsSnoc(items: seq<Plan>, p: Plan)
    ensures EncodeItems(items + [p]) == EncodeItems(items) + Encode(p)
    ensures ValuesOf(items + [p]) == ValuesOf(items) + [ValueOf(p)]
  {
    if items == [] {
      assert [] + [p] == [p] && [p][1..] == [];
    } else {
      ItemsSnoc(items[1..], p);
      assert (items + [p])[0] == items[0] && (items + [p])[1..] == items[1..] + [p];
      Regroup(Encode(items[0]), EncodeItems(items[1..]), Encode(p));
    }
  }

  lemma {:induction false} EntriesSnoc(entries: seq<Entry>, e: Entry)
    requires forall i :: 0 <= i < |entries| ==> entries[i].key != e.key
    ensures EncodeEntries(entries + [e]) == EncodeEntries(entries) + (PutText(e.key) + Encode(e.value))
    ensures MapFrom(entries + [e]) == MapFrom(entries)[e.key := ValueOf(e.value)]
  {
    if entries == [] {
      assert [] + [e] == [e] && [e][1..] == [];
    } else {
      EntriesSnoc(entries[1..], e);
      assert (entries + [e])[0] == entries[0] && (entries + [e])[1..] == entries[1..] + [e];
      Regroup(PutText(entries[0].key) + Encode(entries[0].value), EncodeEntries(entries[1..]), PutText(e.key) + Encode(e.value));
    }
  }

  /** Writes a value. The plan says in which order the maps were enumerated, so every value has one. */
  method WriteTo(w: ScouterWriter, v: Value) returns (ghost p: Plan)
    requires Fits(v)
    modifies w
    ensures Good(p) && ValueOf(p) == v && w.buf == old(w.buf) + Encode(p)
    decreases v, 2
  {
    w.WriteByte(TypeCode(v));
    p := WriteBody(w, v);
    Regroup(old(w.buf), [TypeCode(v)], EncodeBody(p));
  }

  method WriteBody(w: ScouterWriter, v: Value) returns (ghost p: Plan)
    requires Fits(v)
    modifies w
    ensures Good(p) && ValueOf(p) == v && w.buf == old(w.buf) + EncodeBody(p)
    decreases v, 1
  {
    match v {
      case List(items) =>
        w.WriteDecimal(|items|);
        ghost var plans := WriteItems(w, v, items);
        Regroup(old(w.buf), PutCount(|items|), EncodeItems(plans));
        p := ListOf(plans);
      case Map(entries) =>
        w.WriteDecimal(|entries|);
        ghost var plans := WriteEntries(w, v, entries);
        Regroup(old(w.buf), PutCount(|entries|), EncodeEntries(plans));
        p := MapOf(plans);
      case _ =>
        WriteScalar(w, v);
        p := Leaf(v);
    }
  }

  method WriteScalar(w: ScouterWriter, v: Value)
    requires Scalar(v)
    modifies w
    ensures w.buf == old(w.buf) + EncodeScalar(v)
  {
    match v {
      case Boolean(b) => w.WriteBoolean(b);
      case Decimal(n) => w.WriteDecimal(n);
      case Float(bits) => w.WriteSigned(bits, 4);
      case Double(bits) => w.WriteSigned(bits, 8);
      case Str(t) => w.WriteText(t);
      case Blob(data) => w.WriteBlob(data);
      case _ =>
    }
  }

  method WriteItems(w: ScouterWriter, ghost v: Value, items: seq<Value>) returns (ghost plans: seq<Plan>)
    requires v == List(items) && Fits(v)
    modifies w
    ensures |plans| == |items| && (forall i :: 0 <= i < |plans| ==> Good(plans[i]))
    ensures ValuesOf(plans) == items && w.buf == old(w.buf) + EncodeItems(plans)
    decreases v, 0
  {
    plans := [];
    for i := 0 to |items|
      invariant |plans| == i && forall k :: 0 <= k < i ==> Good(plans[k])
      invariant ValuesOf(plans) == items[..i] && w.buf == old(w.buf) + EncodeItems(plans)
    {
      ghost var p := WriteTo(w, items[i]);
      ItemsSnoc(plans, p);
      Regroup(old(w.buf), EncodeItems(plans), Encode(p));
      plans := plans + [p];
      assert items[..i + 1] == items[..i] + [items[i]];
    }
    assert items[..|items|] == items;
  }

  /** Of the entries, those in `todo` are still to be written. */
  ghost predicate Emitted(plans: seq<Entry>, todo: map<Text, Value>, entries: map<Text, Value>) {
    && GoodEntries(plans, todo) && |plans| + |todo| == |entries|
    && MapFrom(plans) + todo == entries
  }

  lemma GoodSnoc(plans: seq<Entry>, todo: map<Text, Value>, k: Text, p: Plan)
    requires GoodEntries(plans, todo) && k in todo && |k| < 0x8000_0000 && Good(p)
    ensures GoodEntries(plans + [Entry(k, p)], todo - {k})
  {
  }

  lemma EmitOne(plans: seq<Entry>, todo: map<Text, Value>, entries: map<Text, Value>, k: Text, p: Plan)
    requires Emitted(plans, todo, entries) && k in todo && |k| < 0x8000_0000 && Good(p) && ValueOf(p) == todo[k]
    ensures Emitted(plans + [Entry(k, p)], todo - {k}, entries)
  {
    GoodSnoc(plans, todo, k, p);
    EntriesSnoc(plans, Entry(k, p));
    MoveKey(MapFrom(plans), todo, k);
  }

  lemma MoveKey(m: map<Text, Value>, todo: map<Text, Value>, k: Text)
    requires k in todo
    ensures m[k := todo[k]] + (todo - {k}) == m + todo && |todo - {k}| == |todo| - 1
  {
    assert todo == (todo - {k})[k := todo[k]];
  }

  lemma NothingEmitted(entries: map<Text, Value>)
    ensures Emitted([], entries, entries) && EncodeEntries([]) == []
  {
    AddToNothing(entries);
  }

  lemma AllEmitted(plans: seq<Entry>, entries: map<Text, Value>)
    requires Emitted(plans, map[], entries)
    ensures |plans| == |entries| && GoodEntries(plans, map[]) && MapFrom(plans) == entries
  {
  }

  lemma StillToEmit(plans: seq<Entry>, todo: map<Text, Value>, entries: map<Text, Value>, k: Text)
    requires Emitted(plans, todo, entries) && k in todo
    ensures k in entries && entries[k] == todo[k]
  {
    assert k in MapFrom(plans) + todo && (MapFrom(plans) + todo)[k] == todo[k];
  }

  lemma AppendEntry(before: Data, plans: seq<Entry>, todo: map<Text, Value>, k: Text, p: Plan)
    requires GoodEntries(plans, todo) && k in todo
    ensures before + EncodeEntries(plans + [Entry(k, p)]) == before + EncodeEntries(plans) + PutText(k) + Encode(p)
  {
    EntriesSnoc(plans, Entry(k, p));
    Regroup(before + EncodeEntries(plans), PutText(k), Encode(p));
    Regroup(before, EncodeEntries(plans), PutText(k) + Encode(p));
  }

  method WriteEntries(w: ScouterWriter, ghost v: Value, entries: map<Text, Value>) returns (ghost plans: seq<Entry>)
    requires v == Map(entries) && Fits(v)
    modifies w
    ensures |plans| == |entries| && GoodEntries(plans, map[])
    ensures MapFrom(plans) == entries && w.buf == old(w.buf) + EncodeEntries(plans)
    decreases v, 0
  {
    hide GoodEntries, MapFrom, EncodeEntries, Encode, PutText;
    plans := [];
    var todo: map<Text, Value> := entries;
    NothingEmitted(entries);
    while |todo| > 0
      invariant Emitted(plans, todo, entries)
      invariant w.buf == old(w.buf) + EncodeEntries(plans)
      decreases |todo|
    {
      var k: Text :| k in todo;
      StillToEmit(plans, todo, entries, k);
      w.WriteText(k);
      ghost var p := WriteTo(w, entries[k]);
      AppendEntry(old(w.buf), plans, todo, k, p);
      EmitOne(plans, todo, entries, k, p);
      plans := plans + [Entry(k, p)];
      todo := todo - {k};
    }
    assert todo == map[];
    AllEmitted(plans, entries);
  }

  /** So writing a value and reading it back gives the value, with the reader at the end of it. */
  method WriteThenRead(v: Value, tail: Data) returns (back: Result<Value>, left: nat)
    requires Fits(v)
    ensures back == Ok(v) && left == |tail|
  {
    var w := new ScouterWriter();
    ghost var p := WriteTo(w, v);
    assert w.buf == Encode(p);
    PlanRoundTrip(p, tail);
    var r := new ScouterReader(w.buf + tail);
    back := ReadFrom(r);
    left := r.Remaining();
  }

  // The map pack: a bare map with a pack type in front when it is written

  const PACK_MAP: Byte := 10

  method WriteMapPack(w: ScouterWriter, entries: map<Text, Value>) returns (ghost plans: seq<Entry>)
    requires Fits(Map(entries))
    modifies w
    ensures |plans| == |entries| && GoodEntries(plans, map[]) && MapFrom(plans) == entries
    ensures w.buf == old(w.buf) + [PACK_MAP] + PutCount(|plans|) + EncodeEntries(plans)
  {
    w.WriteByte(PACK_MAP);
    w.WriteDecimal(|entries|);
    plans := WriteEntries(w, Map(entries), entries);
  }

  /** Reads a map pack whose type byte has been read. */
  function GetMapPack(s: Data): Parse<map<Text, Value>> {
    var (n, r) :- GetDecimal(s);
    GetEntries(AsUsize(n), r, map[])
  }

  method ReadMapPack(r: ScouterReader) returns (res: Result<map<Text, Value>>)
    requires r.Valid()
    modifies r
    ensures r.Valid() && Did(GetMapPack(old(r.Rest())), res, r.Rest())
  {
    var n := r.ReadDecimal();
    if n.Err? {
      return Err;
    }
    res := ReadEntries(r, AsUsize(n.value));
  }

  lemma MapPackAhead(s: Data, n: nat, r: Data)
    requires n < 0x8000_0000_0000_0000 && GetDecimal(s) == Ok((n, r))
    ensures GetMapPack(s) == GetEntries(n, r, map[])
  {
  }

  /** Every map pack comes back equal for every enumeration of its entries, whatever follows it. */
  lemma MapPackRoundTrip(plans: seq<Entry>, tail: Data)
    requires |plans| < 0x8000_0000_0000_0000 && GoodEntries(plans, map[])
    ensures GetMapPack(PutCount(|plans|) + EncodeEntries(plans) + tail) == Ok((MapFrom(plans), tail))
  {
    var rest := EncodeEntries(plans) + tail;
    Regroup(PutCount(|plans|), EncodeEntries(plans), tail);
    CountRoundTrip(|plans|, rest);
    EntriesRoundTrip(plans, map[], tail);
    AddToNothing(MapFrom(plans));
    MapPackAhead(PutCount(|plans|) + rest, |plans|, rest);
  }
}
