/** The codec as the source runs it: an output buffer that the encoder appends to, and a
    cursor that the decoder moves. Each method is proved against the functions of Cbor. */
module CborCodec {
  import opened Basics
  import opened Cbor
  import opened CborProofs

  lemma FlattenStep(es: seq<Keyed<Value>>, i: nat, out: bytes)
    requires i < |es|
    ensures out + Flatten(EncodeValues(es[i..]))
            == out + EncodeKey(es[i].key) + Encode(es[i].val) + Flatten(EncodeValues(es[i + 1..]))
  {
    var tail := Flatten(EncodeValues(es[i + 1..]));
    FlattenCons(es[i..], []);
    assert es[i..][1..] == es[i + 1..];
    assert tail + [] == tail;
    var all := Flatten(EncodeValues(es[i..]));
    assert all + [] == all;
    Concat4(out, EncodeKey(es[i].key), Encode(es[i].val), tail);
  }

  lemma MapDone(es: seq<Keyed<Value>>, old_out: bytes, start: bytes, out: bytes)
    requires start == old_out + Head(5, |es|)
    requires out + Flatten(EncodeValues(Sort(es)[|Sort(es)|..])) == start + Flatten(EncodeValues(Sort(es)))
    ensures out == old_out + Encode(Map(es))
  {
    hide Head, Sort, KeyLess;
    assert Sort(es)[|Sort(es)|..] == [];
    assert out + [] == out;
    EncodeValuesSort(es);
    assert old_out + (Head(5, |es|) + Flatten(EncodeValues(Sort(es)))) == out;
  }

  class Buffer {
    var out: bytes

    constructor ()
      ensures out == []
    {
      out := [];
    }

    method Push(x: byte)
      modifies this
      ensures out == old(out) + [x]
    {
      out := out + [x];
    }

    method Extend(s: bytes)
      modifies this
      ensures out == old(out) + s
    {
      out := out + s;
    }

    method EncodeHead(major: nat, n: nat)
      requires major < 8 && n < U64
      modifies this
      ensures out == old(out) + Head(major, n)
    {
      var mt := 32 * major;
      if n < 24 {
        Push(mt + n);
      } else if n <= 0xFF {
        Push(mt + 24);
        Push(n);
        assert ToBE(n, 1) == ToBE(n / 256, 0) + [n];
      } else if n <= 0xFFFF {
        Push(mt + 25);
        Extend(ToBE(n, 2));
      } else if n <= 0xFFFF_FFFF {
        Push(mt + 26);
        Extend(ToBE(n, 4));
      } else {
        Push(mt + 27);
        Extend(ToBE(n, 8));
      }
    }

    method EncodeText(k: bytes)
      requires |k| < U64
      modifies this
      ensures out == old(out) + EncodeKey(k)
    {
      EncodeHead(3, |k|);
      Extend(k);
    }

    method EncodeValue(v: Value)
      requires Representable(v)
      modifies this
      ensures out == old(out) + Encode(v)
      decreases v, 1
    {
      match v
      case Uint(n) => EncodeHead(0, n);
      case Bytes(b) => EncodeHead(2, |b|); Extend(b);
      case Text(s) => EncodeText(s);
      case Array(items) => EncodeArray(v);
      case Map(es) => EncodeMap(v);
    }

    method EncodeArray(v: Value)
      requires v.Array? && Representable(v)
      modifies this
      ensures out == old(out) + Encode(v)
      decreases v, 0
    {
      hide Head;
      EncodeHead(4, |v.items|);
      ghost var start := out;
      var i := 0;
      assert v.items[0..] == v.items;
      while i < |v.items|
        invariant 0 <= i <= |v.items|
        invariant out + EncodeItems(v.items[i..]) == start + EncodeItems(v.items)
      {
        assert v.items[i..][1..] == v.items[i + 1..];
        EncodeValue(v.items[i]);
        i := i + 1;
      }
      assert out + EncodeItems([]) == out;
    }

    /** Entries go out in the order of their encoded keys. */
    method EncodeMap(v: Value)
      requires v.Map? && Representable(v)
      modifies this
      ensures out == old(out) + Encode(v)
      decreases v, 0
    {
      var sorted := Sort(v.entries);
      EncodeHead(5, |v.entries|);
      hide Head, Representable, EncodeKey;
      ghost var start := out;
      var i := 0;
      assert sorted[0..] == sorted;
      while i < |sorted|
        invariant 0 <= i <= |sorted|
        invariant out + Flatten(EncodeValues(sorted[i..])) == start + Flatten(EncodeValues(sorted))
      {
        ghost var j := SortMember(v.entries, i);
        FlattenStep(sorted, i, out);
        EncodeEntry(v, j, sorted[i]);
        i := i + 1;
      }
      MapDone(v.entries, old(out), start, out);
    }

    method EncodeEntry(ghost v: Value, ghost j: nat, e: Keyed<Value>)
      requires v.Map? && Representable(v) && j < |v.entries| && v.entries[j] == e
      modifies this
      ensures out == old(out) + EncodeKey(e.key) + Encode(e.val)
      decreases v, 0, 0
    {
      EncodeText(e.key);
      EncodeValue(e.val);
    }
  }

  method ToBytes(v: Value) returns (b: bytes)
    requires Representable(v)
    ensures b == Encode(v)
  {
    var buffer := new Buffer();
    buffer.EncodeValue(v);
    b := buffer.out;
  }

  /** What a push loop returns: the pushed items in front of whatever is still to be read. */
  ghost function Pushed<T>(done: seq<T>, rest: Res<(seq<T>, bytes)>): Res<(seq<T>, bytes)> {
    if rest.Ok? then Ok((done + rest.value.0, rest.value.1)) else rest
  }

  lemma PushedNone<T>(rest: Res<(seq<T>, bytes)>)
    ensures Pushed([], rest) == rest
  {
    if rest.Ok? {
      assert [] + rest.value.0 == rest.value.0;
    }
  }

  lemma PushedOne<T>(done: seq<T>, x: T, rest: Res<(seq<T>, bytes)>)
    ensures Pushed(done, Pushed([x], rest)) == Pushed(done + [x], rest)
  {
    if rest.Ok? {
      assert done + ([x] + rest.value.0) == done + [x] + rest.value.0;
    }
  }

  class Cursor {
    const data: bytes
    var pos: nat

    ghost predicate Valid()
      reads this
    {
      pos <= |data| < U64
    }

    ghost function Rest(): bytes
      reads this
      requires Valid()
    {
      data[pos..]
    }

    constructor (data: bytes)
      requires |data| < U64
      ensures this.data == data && Valid() && Rest() == data
    {
      this.data := data;
      pos := 0;
    }

    method Take(n: nat) returns (r: Res<bytes>)
      requires Valid() && n < U64
      modifies this`pos
      ensures Valid()
      ensures match Cbor.Take(old(Rest()), n)
              case Ok((s, rest)) => r == Ok(s) && Rest() == rest
              case Err(e) => r == Err(e) && pos == old(pos)
    {
      var end := pos + n;
      if end >= U64 {
        return Err(CborError(Truncated));
      }
      if end > |data| {
        return Err(CborError(Truncated));
      }
      r := Ok(data[pos..end]);
      assert data[pos..][..n] == data[pos..end] && data[pos..][n..] == data[end..];
      pos := end;
    }

    method ReadHead() returns (r: Res<(nat, nat)>)
      requires Valid()
      modifies this`pos
      ensures Valid()
      ensures match Cbor.ReadHead(old(Rest()))
              case Ok((major, n, rest)) => r == Ok((major, n)) && n < U64 && Rest() == rest
              case Err(e) => r == Err(e)
    {
      ghost var start := Rest();
      var first := Take(1);
      if first.Err? {
        return Err(first.error);
      }
      var major, info := first.value[0] / 32, first.value[0] % 32;
      if info < 24 {
        return Ok((major, info));
      }
      if info > 27 {
        return Err(CborError(Reserved));
      }
      var arg := Take(Width(info));
      if arg.Err? {
        return Err(arg.error);
      }
      var n := FromBE(arg.value);
      if n < Least(info) {
        return Err(CborError(NonMinimal));
      }
      InfoOfArgument(info, n);
      r := Ok((major, n));
    }

    method ReadText(n: nat) returns (r: Res<bytes>)
      requires Valid() && n < U64
      modifies this`pos
      ensures Valid()
      ensures match Cbor.ReadText(old(Rest()), n)
              case Ok((s, rest)) => r == Ok(s) && Rest() == rest
              case Err(e) => r == Err(e)
    {
      r := Take(n);
      if r.Ok? && !ValidUtf8(r.value) {
        r := Err(CborError(InvalidUtf8));
      }
    }

    method ReadValue() returns (r: Res<Value>)
      requires Valid()
      modifies this`pos
      ensures Valid()
      ensures match Cbor.ReadValue(old(Rest()))
              case Ok((v, rest)) => r == Ok(v) && Rest() == rest
              case Err(e) => r == Err(e)
      decreases |data| - pos, 0
    {
      hide Cbor.ReadHead;
      ghost var start := Rest();
      var head := ReadHead();
      if head.Err? {
        return Err(head.error);
      }
      assert |Rest()| < |start|;
      var (major, n) := head.value;
      match major {
        case 0 =>
          r := Ok(Uint(n));
        case 2 =>
          var b := Take(n);
          r := if b.Ok? then Ok(Bytes(b.value)) else Err(b.error);
        case 3 =>
          var s := ReadText(n);
          r := if s.Ok? then Ok(Text(s.value)) else Err(s.error);
        case 4 =>
          var items := ReadItems(n);
          r := if items.Ok? then Ok(Array(items.value)) else Err(items.error);
        case 5 =>
          var entries := ReadEntries(n);
          r := if entries.Ok? then Ok(Map(entries.value)) else Err(entries.error);
        case _ =>
          r := Err(CborError(UnsupportedMajor));
      }
    }

    method ReadItems(n: nat) returns (r: Res<seq<Value>>)
      requires Valid()
      modifies this`pos
      ensures Valid()
      ensures match Cbor.ReadItems(old(Rest()), n)
              case Ok((vs, rest)) => r == Ok(vs) && Rest() == rest
              case Err(e) => r == Err(e)
      decreases |data| - pos, 1
    {
      hide Cbor.ReadValue;
      ghost var start := Rest();
      var items: seq<Value> := [];
      var i := 0;
      PushedNone(Cbor.ReadItems(start, n));
      while i < n
        invariant 0 <= i <= n && Valid() && pos >= old(pos) && (i > 0 ==> pos > old(pos))
        invariant Cbor.ReadItems(start, n) == Pushed(items, Cbor.ReadItems(Rest(), n - i))
      {
        ghost var before := Rest();
        var item := ReadValue();
        if item.Err? {
          return Err(item.error);
        }
        assert |Rest()| < |before|;
        ghost var later := Cbor.ReadItems(Rest(), n - i - 1);
        assert Cbor.ReadItems(before, n - i) == Pushed([item.value], later);
        PushedOne(items, item.value, later);
        items := items + [item.value];
        i := i + 1;
      }
      assert items + [] == items;
      r := Ok(items);
    }

    method ReadEntries(n: nat) returns (r: Res<seq<Keyed<Value>>>)
      requires Valid()
      modifies this`pos
      ensures Valid()
      ensures match Cbor.ReadEntries(old(Rest()), n, None)
              case Ok((es, rest)) => r == Ok(es) && Rest() == rest
              case Err(e) => r == Err(e)
      decreases |data| - pos, 1
    {
      hide Cbor.ReadValue, Cbor.ReadHead, EncodeKey;
      ghost var start := Rest();
      ghost var prev: Option<bytes> := None;
      var entries: seq<Keyed<Value>> := [];
      var prevKey: Option<bytes> := None;
      var i := 0;
      PushedNone(Cbor.ReadEntries(start, n, None));
      while i < n
        invariant 0 <= i <= n && Valid() && pos >= old(pos) && (i > 0 ==> pos > old(pos))
        invariant |entries| == i
        invariant prevKey == if prev.Some? then Some(EncodeKey(prev.value)) else None
        invariant Cbor.ReadEntries(start, n, None)
                  == Pushed(entries, Cbor.ReadEntries(Rest(), n - i, prev))
      {
        ghost var before := Rest();
        var head := ReadHead();
        if head.Err? {
          return Err(head.error);
        }
        if head.value.0 != 3 {
          return Err(CborError(KeyNotText));
        }
        var key := ReadText(head.value.1);
        if key.Err? {
          return Err(key.error);
        }
        assert Cbor.ReadKey(before) == Ok((key.value, Rest()));
        var encodedKey := EncodeKey(key.value);
        if prevKey.Some? && !LexLess(prevKey.value, encodedKey) {
          return Err(CborError(CborFault.KeyOrder));
        }
        assert |Rest()| < |before|;
        var value := ReadValue();
        if value.Err? {
          return Err(value.error);
        }
        prev, prevKey := Some(key.value), Some(encodedKey);
        var entry := Keyed(key.value, value.value);
        ghost var later := Cbor.ReadEntries(Rest(), n - i - 1, prev);
        PushedOne(entries, entry, later);
        entries := entries + [entry];
        i := i + 1;
      }
      assert entries + [] == entries;
      r := Ok(entries);
    }
  }

  method ParseBytes(data: bytes) returns (r: Res<Value>)
    requires |data| < U64
    ensures r == FromBytes(data)
  {
    hide Cbor.ReadValue;
    var cursor := new Cursor(data);
    r := cursor.ReadValue();
    if r.Ok? && cursor.pos != |data| {
      r := Err(CborError(TrailingBytes));
    }
  }
}
