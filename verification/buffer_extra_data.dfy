/** Typed key-value data that travels with a buffer (frameworks/surface/src/buffer_extra_data_impl.cpp), and its
    parcel form. A parcel is a sequence of typed tokens. */
module BufferExtraData {
  import Ordered
  import Sequences

  datatype Any = I32(i: int) | I64(l: int) | F64(d: real) | Str(s: string)

  const I32_KIND := 0
  const I64_KIND := 1
  const F64_KIND := 2
  const STRING_KIND := 3

  datatype ExtraData = ExtraData(val: Any, kind: int)

  type Datas = map<string, ExtraData>

  datatype Error = Ok | NoEntry | TypeError | OutOfRange | Internal

  datatype Result = Value(value: Any) | Failure(error: Error)

  datatype Token = Int32(i: int) | Int64(l: int) | Double(d: real) | Text(s: string)

  const MAGIC := 0x4567
  const MAX_USER_DATA_COUNT := 1000

  // ----- storing and looking up -----

  function KindOf(v: Any): int {
    match v
    case I32(_) => I32_KIND
    case I64(_) => I64_KIND
    case F64(_) => F64_KIND
    case Str(_) => STRING_KIND
  }

  function Stored(m: Datas, key: string, kind: int, val: Any): (Datas, Error) {
    if key !in m && |m| > MAX_USER_DATA_COUNT then (m, OutOfRange) else (m[key := ExtraData(val, kind)], Ok)
  }

  function Found(m: Datas, key: string, kind: int): Result {
    if key !in m then Failure(NoEntry)
    else if m[key].kind != kind || KindOf(m[key].val) != kind then Failure(TypeError)
    else Value(m[key].val)
  }

  /** Every value has the type its entry names, and there is at most one entry more than the documented limit. */
  ghost predicate Typed(m: Datas) {
    && (forall k :: k in m ==> m[k].kind == KindOf(m[k].val))
    && |m| <= MAX_USER_DATA_COUNT + 1
  }

  // ----- writing -----

  /** An integer stored in 32 bits. */
  function ToInt32(n: int): int {
    var low := n % 0x1_0000_0000;
    if low < 0x8000_0000 then low else low - 0x1_0000_0000
  }

  /** A value that does not have the type its entry names is written as a minus one. */
  function ValueTokens(d: ExtraData): seq<Token> {
    if d.kind == I32_KIND then [Int32(if d.val.I32? then d.val.i else -1)]
    else if d.kind == I64_KIND then [Int64(if d.val.I64? then d.val.l else -1)]
    else if d.kind == F64_KIND then [Double(if d.val.F64? then d.val.d else -1.0)]
    else if d.kind == STRING_KIND then [Text(if d.val.Str? then d.val.s else "-1")]
    else []
  }

  function EntryTokens(key: string, d: ExtraData): seq<Token> {
    [Text(key), Int32(d.kind)] + ValueTokens(d)
  }

  ghost function EntriesTokens(m: Datas, order: seq<string>): seq<Token>
    requires forall k :: k in order ==> k in m
  {
    if order == [] then [] else EntryTokens(order[0], m[order[0]]) + EntriesTokens(m, order[1..])
  }

  ghost predicate Enumerates(order: seq<string>, m: Datas) {
    (forall k :: k in order <==> k in m) && |order| == |m|
  }

  ghost function Written(m: Datas, order: seq<string>): seq<Token>
    requires Enumerates(order, m)
  {
    [Int32(MAGIC), Int32(ToInt32(|m|))] + EntriesTokens(m, order)
  }

  // ----- reading -----

  /** Reads past the end of the parcel, or of the wrong type, give a default and consume nothing. */
  function TakeInt32(q: seq<Token>): (int, seq<Token>) {
    if q != [] && q[0].Int32? then (q[0].i, q[1..]) else (0, q)
  }

  function TakeInt64(q: seq<Token>): (int, seq<Token>) {
    if q != [] && q[0].Int64? then (q[0].l, q[1..]) else (0, q)
  }

  function TakeDouble(q: seq<Token>): (real, seq<Token>) {
    if q != [] && q[0].Double? then (q[0].d, q[1..]) else (0.0, q)
  }

  function TakeText(q: seq<Token>): (string, seq<Token>) {
    if q != [] && q[0].Text? then (q[0].s, q[1..]) else ("", q)
  }

  /** The value of an entry of this kind; an unknown kind has none. */
  function TakeValue(q: seq<Token>, kind: int): (seq<Any>, seq<Token>) {
    if kind == I32_KIND then var (i, rest) := TakeInt32(q); ([I32(i)], rest)
    else if kind == I64_KIND then var (l, rest) := TakeInt64(q); ([I64(l)], rest)
    else if kind == F64_KIND then var (d, rest) := TakeDouble(q); ([F64(d)], rest)
    else if kind == STRING_KIND then var (s, rest) := TakeText(q); ([Str(s)], rest)
    else ([], q)
  }

  function ReadEntry(m: Datas, q: seq<Token>): (Datas, seq<Token>) {
    var (key, q1) := TakeText(q);
    var (kind, q2) := TakeInt32(q1);
    var (val, q3) := TakeValue(q2, kind);
    (if val == [] then m else Stored(m, key, kind, val[0]).0, q3)
  }

  function ReadEntries(m: Datas, q: seq<Token>, n: int): (Datas, seq<Token>)
    decreases n
  {
    if n <= 0 then (m, q)
    else
      var (m', q') := ReadEntry(m, q);
      ReadEntries(m', q', n - 1)
  }

  function Read(m: Datas, q: seq<Token>): (Datas, seq<Token>, Error) {
    var (magic, q1) := TakeInt32(q);
    if q == [] || !q[0].Int32? || magic != MAGIC then (m, q1, Internal)
    else
      var (size, q2) := TakeInt32(q1);
      var (m', q3) := ReadEntries(m, q2, size);
      (m', q3, Ok)
  }

  // ----- what every object keeps -----

  /** One more entry than the documented limit gets in, and no more than that. */
  lemma StoredExact(m: Datas, key: string, val: Any)
    requires Typed(m)
    ensures var (m', error) := Stored(m, key, KindOf(val), val);
      && Typed(m')
      && (error == OutOfRange <==> key !in m && |m| == MAX_USER_DATA_COUNT + 1)
      && (error == Ok ==> Found(m', key, KindOf(val)) == Value(val))
      && (forall k, kind :: k != key ==> Found(m', k, kind) == Found(m, k, kind))
  {
    var (m', error) := Stored(m, key, KindOf(val), val);
    assert m'.Keys == m.Keys + {key} || m' == m;
  }

  /** A value is found under its key and its own type: another type is a TYPE_ERROR, another key a NO_ENTRY. */
  lemma FoundExact(m: Datas, key: string, kind: int)
    requires Typed(m)
    ensures Found(m, key, kind) == Failure(NoEntry) <==> key !in m
    ensures Found(m, key, kind) == Failure(TypeError) <==> key in m && KindOf(m[key].val) != kind
    ensures forall v :: Found(m, key, kind) == Value(v) <==> key in m && m[key].val == v && KindOf(v) == kind
  {}

  lemma TakeValueKind(q: seq<Token>, kind: int)
    ensures var val := TakeValue(q, kind).0; |val| <= 1 && (val != [] ==> KindOf(val[0]) == kind)
  {}

  lemma ReadEntryKeeps(m: Datas, q: seq<Token>)
    requires Typed(m)
    ensures Typed(ReadEntry(m, q).0)
  {
    var (key, q1) := TakeText(q);
    var (kind, q2) := TakeInt32(q1);
    TakeValueKind(q2, kind);
    hide TakeText, TakeInt32, TakeValue, Typed;
    var val := TakeValue(q2, kind).0;
    if val != [] {
      StoredExact(m, key, val[0]);
    }
  }

  lemma {:induction false} ReadEntriesKeep(m: Datas, q: seq<Token>, n: int)
    requires Typed(m)
    ensures Typed(ReadEntries(m, q, n).0)
    decreases n
  {
    if n > 0 {
      ReadEntryKeeps(m, q);
      hide ReadEntry, Typed;
      var (m', q') := ReadEntry(m, q);
      ReadEntriesKeep(m', q', n - 1);
    }
  }

  datatype Call = Set(key: string, val: Any) | Load(parcel: seq<Token>)

  function Apply(m: Datas, call: Call): Datas {
    match call
    case Set(key, val) => Stored(m, key, KindOf(val), val).0
    case Load(parcel) => Read(m, parcel).0
  }

  function Run(m: Datas, calls: seq<Call>): Datas
    decreases |calls|
  {
    if calls == [] then m else Run(Apply(m, calls[0]), calls[1..])
  }

  /** Whatever is set through the typed calls and whatever parcels are loaded. */
  lemma {:induction false} RunKeeps(m: Datas, calls: seq<Call>)
    requires Typed(m)
    ensures Typed(Run(m, calls))
    decreases |calls|
  {
    if calls != [] {
      match calls[0] {
        case Set(key, val) => StoredExact(m, key, val);
        case Load(parcel) =>
          var (size, q) := TakeInt32(TakeInt32(parcel).1);
          ReadEntriesKeep(m, q, size);
      }
      hide Typed, Apply;
      RunKeeps(Apply(m, calls[0]), calls[1..]);
    }
  }

  lemma {:induction false} RunOneMore(m: Datas, calls: seq<Call>, call: Call)
    ensures Run(m, calls + [call]) == Apply(Run(m, calls), call)
    decreases |calls|
  {
    if calls == [] {
      assert [] + [call] == [call];
    } else {
      assert (calls + [call])[1..] == calls[1..] + [call];
      RunOneMore(Apply(m, calls[0]), calls[1..], call);
    }
  }

  /** Every size up to one more than the documented limit is reached. */
  lemma {:induction false} EverySizeReached(n: nat) returns (calls: seq<Call>)
    requires n <= MAX_USER_DATA_COUNT + 1
    ensures |Run(map[], calls)| == n && forall k :: k in Run(map[], calls) ==> |k| < n
  {
    calls := [];
    if n > 0 {
      calls := EverySizeReached(n - 1);
      var key := seq(n - 1, _ => 'k');
      RunOneMore(map[], calls, Set(key, I32(0)));
      OneEntryMore(Run(map[], calls), key, ExtraData(I32(0), I32_KIND));
      calls := calls + [Set(key, I32(0))];
    }
  }

  // ----- round trip -----

  /** The entries named by the keys, stored one after the other. */
  ghost function StoredAll(acc: Datas, m: Datas, order: seq<string>): Datas
    requires forall k :: k in order ==> k in m
    decreases |order|
  {
    if order == [] then acc
    else StoredAll(Stored(acc, order[0], m[order[0]].kind, m[order[0]].val).0, m, order[1..])
  }

  lemma ValueRoundTrip(d: ExtraData, rest: seq<Token>)
    requires d.kind == KindOf(d.val)
    ensures TakeValue(ValueTokens(d) + rest, d.kind) == ([d.val], rest)
  {
    var q := ValueTokens(d) + rest;
    assert q[1..] == rest;
  }

  lemma EntryRoundTrip(acc: Datas, key: string, d: ExtraData, rest: seq<Token>)
    requires d.kind == KindOf(d.val)
    ensures ReadEntry(acc, EntryTokens(key, d) + rest) == (Stored(acc, key, d.kind, d.val).0, rest)
  {
    var q := EntryTokens(key, d) + rest;
    assert q[1..] == [Int32(d.kind)] + (ValueTokens(d) + rest);
    assert q[1..][1..] == ValueTokens(d) + rest;
    ValueRoundTrip(d, rest);
    hide TakeValue, ValueTokens, Stored;
  }

  lemma EntriesStep(m: Datas, order: seq<string>, rest: seq<Token>)
    requires order != [] && forall k :: k in order ==> k in m
    ensures EntriesTokens(m, order) + rest
      == EntryTokens(order[0], m[order[0]]) + (EntriesTokens(m, order[1..]) + rest)
  {
    hide EntryTokens;
  }

  lemma {:induction false} EntriesRoundTrip(acc: Datas, m: Datas, order: seq<string>, rest: seq<Token>)
    requires forall k :: k in order ==> k in m
    requires forall k :: k in m ==> m[k].kind == KindOf(m[k].val)
    ensures ReadEntries(acc, EntriesTokens(m, order) + rest, |order|) == (StoredAll(acc, m, order), rest)
    decreases |order|
  {
    if order == [] {
      assert EntriesTokens(m, order) + rest == rest;
    } else {
      var key, d := order[0], m[order[0]];
      EntriesStep(m, order, rest);
      EntryRoundTrip(acc, key, d, EntriesTokens(m, order[1..]) + rest);
      hide ReadEntry, Stored, EntryTokens, EntriesTokens, KindOf;
      EntriesRoundTrip(Stored(acc, key, d.kind, d.val).0, m, order[1..], rest);
    }
  }

  ghost function Only(m: Datas, order: seq<string>): Datas {
    map k | k in order && k in m :: m[k]
  }

  lemma RoomLeft(few: Datas, all: Datas, key: string)
    requires few.Keys <= all.Keys && key in all && key !in few
    ensures |few| < |all|
  {
    Ordered.SubsetSize(few.Keys, all.Keys - {key});
  }

  lemma OneEntryMore(m: Datas, key: string, d: ExtraData)
    ensures |m[key := d]| == |m| + if key in m then 0 else 1
  {
    assert m[key := d].Keys == m.Keys + {key};
    if key in m {
      assert m.Keys + {key} == m.Keys;
    }
  }

  lemma StoredFits(acc: Datas, m: Datas, key: string, all: Datas)
    requires key in m && |acc| <= MAX_USER_DATA_COUNT + 1
    ensures |Stored(acc, key, m[key].kind, m[key].val).0| <= MAX_USER_DATA_COUNT + 1
    ensures |all| <= MAX_USER_DATA_COUNT + 1 && acc.Keys <= all.Keys && key in all
      ==> Stored(acc, key, m[key].kind, m[key].val).0 == acc[key := m[key]]
  {
    var d := m[key];
    assert d == ExtraData(d.val, d.kind);
    OneEntryMore(acc, key, d);
    if acc.Keys <= all.Keys && key in all && key !in acc {
      RoomLeft(acc, all, key);
    }
  }

  /** Storing never takes a small object over the limit, and adds everything when everything fits. */
  lemma {:induction false} StoredAllExact(acc: Datas, m: Datas, order: seq<string>)
    requires forall k :: k in order ==> k in m
    requires |acc| <= MAX_USER_DATA_COUNT + 1
    ensures |StoredAll(acc, m, order)| <= MAX_USER_DATA_COUNT + 1
    ensures |acc + Only(m, order)| <= MAX_USER_DATA_COUNT + 1 ==> StoredAll(acc, m, order) == acc + Only(m, order)
    decreases |order|
  {
    if order == [] {
      assert acc + Only(m, order) == acc;
    } else {
      var key := order[0];
      StoredFits(acc, m, key, acc + Only(m, order));
      OnlySteps(acc, m, order);
      hide Stored, Only;
      StoredAllExact(Stored(acc, key, m[key].kind, m[key].val).0, m, order[1..]);
    }
  }

  lemma OnlySteps(acc: Datas, m: Datas, order: seq<string>)
    requires order != [] && order[0] in m
    ensures acc[order[0] := m[order[0]]] + Only(m, order[1..]) == acc + Only(m, order)
    ensures order[0] in acc + Only(m, order)
  {
    assert forall k :: k in order <==> k == order[0] || k in order[1..];
  }

  /** Reading a written object into another one consumes the parcel exactly and, when the keys of both fit, merges
      the two, the written one winning. */
  lemma ReadMerges(acc: Datas, m: Datas, order: seq<string>, rest: seq<Token>)
    requires Typed(acc) && Typed(m) && Enumerates(order, m)
    ensures var (m', rest', error) := Read(acc, Written(m, order) + rest);
      && error == Ok && rest' == rest
      && (|acc + m| <= MAX_USER_DATA_COUNT + 1 ==> m' == acc + m)
  {
    ReadWritten(acc, m, order, rest);
    StoredAllExact(acc, m, order);
    OnlyAll(m, order);
    hide StoredAll, Read, Written, Only;
  }

  lemma OnlyAll(m: Datas, order: seq<string>)
    requires Enumerates(order, m)
    ensures Only(m, order) == m
  {}

  lemma ReadWritten(acc: Datas, m: Datas, order: seq<string>, rest: seq<Token>)
    requires (forall k :: k in m ==> m[k].kind == KindOf(m[k].val)) && Enumerates(order, m) && |m| < 0x8000_0000
    ensures Read(acc, Written(m, order) + rest) == (StoredAll(acc, m, order), rest, Ok)
  {
    var tail := EntriesTokens(m, order) + rest;
    var q := Written(m, order) + rest;
    assert q[1..] == [Int32(|m|)] + tail;
    assert q[1..][1..] == tail;
    EntriesRoundTrip(acc, m, order, rest);
  }

  /** A written object read into a fresh one comes back as it was exactly when it has at most one entry more than the
      limit, which every object has that was filled through the typed calls. */
  lemma RoundTripExact(m: Datas, order: seq<string>, rest: seq<Token>)
    requires (forall k :: k in m ==> m[k].kind == KindOf(m[k].val)) && Enumerates(order, m) && |m| < 0x8000_0000
    ensures Read(map[], Written(m, order) + rest) == (m, rest, Ok) <==> |m| <= MAX_USER_DATA_COUNT + 1
  {
    ReadWritten(map[], m, order, rest);
    StoredAllExact(map[], m, order);
    OnlyAll(m, order);
    hide StoredAll, Read, Written, Only;
    assert map[] + m == m;
  }

  /** The round trip of everything a program can put together. */
  lemma RunRoundTrip(calls: seq<Call>, order: seq<string>, rest: seq<Token>)
    requires Enumerates(order, Run(map[], calls))
    ensures Read(map[], Written(Run(map[], calls), order) + rest) == (Run(map[], calls), rest, Ok)
  {
    RunKeeps(map[], calls);
    RoundTripExact(Run(map[], calls), order, rest);
  }

  // ----- the objects -----

  class MessageParcel {
    var tokens: seq<Token>

    constructor ()
      ensures tokens == []
    {
      tokens := [];
    }

    method Write(t: Token)
      modifies this
      ensures tokens == old(tokens) + [t]
    {
      tokens := tokens + [t];
    }

    method ReadInt32() returns (i: int)
      modifies this
      ensures (i, tokens) == TakeInt32(old(tokens))
    {
      i := 0;
      if tokens != [] && tokens[0].Int32? {
        i, tokens := tokens[0].i, tokens[1..];
      }
    }

    method ReadInt64() returns (l: int)
      modifies this
      ensures (l, tokens) == TakeInt64(old(tokens))
    {
      l := 0;
      if tokens != [] && tokens[0].Int64? {
        l, tokens := tokens[0].l, tokens[1..];
      }
    }

    method ReadDouble() returns (d: real)
      modifies this
      ensures (d, tokens) == TakeDouble(old(tokens))
    {
      d := 0.0;
      if tokens != [] && tokens[0].Double? {
        d, tokens := tokens[0].d, tokens[1..];
      }
    }

    method ReadString() returns (s: string)
      modifies this
      ensures (s, tokens) == TakeText(old(tokens))
    {
      s := "";
      if tokens != [] && tokens[0].Text? {
        s, tokens := tokens[0].s, tokens[1..];
      }
    }
  }

  class BufferExtraDataImpl {
    var datas: Datas

    constructor ()
      ensures datas == map[] && Typed(datas)
    {
      datas := map[];
    }

    method ExtraSet(key: string, kind: int, val: Any) returns (error: Error)
      modifies this
      ensures (datas, error) == Stored(old(datas), key, kind, val)
    {
      if key !in datas && |datas| > MAX_USER_DATA_COUNT {
        return OutOfRange;
      }
      datas := datas[key := ExtraData(val, kind)];
      error := Ok;
    }

    method ExtraGet(key: string, kind: int) returns (r: Result)
      ensures r == Found(datas, key, kind)
    {
      if key !in datas {
        return Failure(NoEntry);
      }
      if datas[key].kind != kind {
        return Failure(TypeError);
      }
      if KindOf(datas[key].val) != kind {
        return Failure(TypeError);
      }
      r := Value(datas[key].val);
    }

    method ReadFromParcel(parcel: MessageParcel) returns (error: Error)
      modifies this, parcel
      ensures (datas, parcel.tokens, error) == Read(old(datas), old(parcel.tokens))
    {
      if parcel.tokens == [] || !parcel.tokens[0].Int32? {
        return Internal;
      }
      var magic := parcel.ReadInt32();
      if magic != MAGIC {
        return Internal;
      }
      var size := parcel.ReadInt32();
      ghost var m0, q0 := datas, parcel.tokens;
      hide TakeInt32, TakeInt64, TakeDouble, TakeText, Stored;
      var i := 0;
      while i < size
        invariant ReadEntries(m0, q0, size) == ReadEntries(datas, parcel.tokens, size - i)
        invariant i >= size ==> ReadEntries(m0, q0, size) == (datas, parcel.tokens)
      {
        var key := parcel.ReadString();
        var kind := parcel.ReadInt32();
        var error;
        if kind == I32_KIND {
          var v := parcel.ReadInt32();
          error := ExtraSet(key, kind, I32(v));
        } else if kind == I64_KIND {
          var v := parcel.ReadInt64();
          error := ExtraSet(key, kind, I64(v));
        } else if kind == F64_KIND {
          var v := parcel.ReadDouble();
          error := ExtraSet(key, kind, F64(v));
        } else if kind == STRING_KIND {
          var v := parcel.ReadString();
          error := ExtraSet(key, kind, Str(v));
        }
        i := i + 1;
      }
      error := Ok;
    }

    /** The order of the entries is the map's own; any order is allowed here. */
    method WriteToParcel(parcel: MessageParcel) returns (error: Error, ghost order: seq<string>)
      modifies parcel
      ensures error == Ok && Enumerates(order, datas)
      ensures parcel.tokens == old(parcel.tokens) + Written(datas, order)
    {
      ghost var before := parcel.tokens;
      parcel.Write(Int32(MAGIC));
      parcel.Write(Int32(ToInt32(|datas|)));
      NoEntriesTokens(datas);
      assert parcel.tokens == before + [Int32(MAGIC), Int32(ToInt32(|datas|))];
      hide EntriesTokens, EntryTokens, ToInt32;
      order := [];
      var rest := datas.Keys;
      while rest != {}
        invariant rest <= datas.Keys
        invariant forall k :: k in order <==> k in datas.Keys - rest
        invariant |order| + |rest| == |datas|
        invariant parcel.tokens == before + [Int32(MAGIC), Int32(ToInt32(|datas|))] + EntriesTokens(datas, order)
        decreases |rest|
      {
        var key :| key in rest;
        WriteEntry(parcel, key, datas[key]);
        EntriesAppend(datas, order, key);
        Sequences.Regroup(before + [Int32(MAGIC), Int32(ToInt32(|datas|))], EntriesTokens(datas, order),
                          EntryTokens(key, datas[key]));
        order := order + [key];
        rest := rest - {key};
      }
      Sequences.Regroup(before, [Int32(MAGIC), Int32(ToInt32(|datas|))], EntriesTokens(datas, order));
      error := Ok;
    }

    static method WriteEntry(parcel: MessageParcel, key: string, data: ExtraData)
      modifies parcel
      ensures parcel.tokens == old(parcel.tokens) + EntryTokens(key, data)
    {
      parcel.Write(Text(key));
      parcel.Write(Int32(data.kind));
      if data.kind == I32_KIND {
        parcel.Write(Int32(if data.val.I32? then data.val.i else -1));
      } else if data.kind == I64_KIND {
        parcel.Write(Int64(if data.val.I64? then data.val.l else -1));
      } else if data.kind == F64_KIND {
        parcel.Write(Double(if data.val.F64? then data.val.d else -1.0));
      } else if data.kind == STRING_KIND {
        parcel.Write(Text(if data.val.Str? then data.val.s else "-1"));
      }
    }
  }

  lemma NoEntriesTokens(m: Datas)
    ensures EntriesTokens(m, []) == []
  {}

  lemma {:induction false} EntriesAppend(m: Datas, order: seq<string>, key: string)
    requires key in m && forall k :: k in order ==> k in m
    ensures EntriesTokens(m, order + [key]) == EntriesTokens(m, order) + EntryTokens(key, m[key])
  {
    if order == [] {
      assert [] + [key] == [key];
    } else {
      assert (order + [key])[1..] == order[1..] + [key];
      EntriesAppend(m, order[1..], key);
    }
  }
}
