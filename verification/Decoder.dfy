/**
 * The imperative decoder: `_Reader`, whose cursor every read advances, and the
 * two column loops. Each method is proved against the cursor functions of
 * PgOutput; a `Failure` stands for the exception the source raises.
 */
module Decoder {
  import opened Wrappers
  import opened Bytes
  import opened PgOutput

  /** `r` and the new cursor are what the cursor function `read` says. */
  ghost predicate Did<T(!new)>(read: Read<T>, r: Result<T, Raised>, pos: int) {
    match read
    case Success((value, next)) => r == Success(value) && pos == next
    case Failure(error) => r == Failure(error)
  }

  class Reader {
    const buf: bytes
    var pos: int

    constructor (buf: bytes)
      ensures this.buf == buf && pos == 0
    {
      this.buf := buf;
      pos := 0;
    }

    method Int8() returns (r: Result<int, Raised>)
      modifies this
      ensures Did(Int8At(buf, old(pos)), r, pos)
      ensures 0 <= old(pos) < |buf| ==> r == Success(buf[old(pos)] as int) && pos == old(pos) + 1
      ensures old(pos) >= |buf| ==> r == Failure(IndexError)
      ensures r.Failure? ==> pos == old(pos)
    {
      var i := if pos < 0 then pos + |buf| else pos;
      if !(0 <= i < |buf|) {
        return Failure(IndexError);
      }
      r := Success(buf[i] as int);
      pos := pos + 1;
    }

    method Char() returns (c: bytes)
      modifies this
      ensures (c, pos) == CharAt(buf, old(pos))
      ensures pos == old(pos) + 1
      ensures old(pos) >= 0 ==> c == if old(pos) < |buf| then [buf[old(pos)]] else []
      ensures |c| <= 1
    {
      c := Slice(buf, pos, pos + 1);
      pos := pos + 1;
    }

    /** `int16`, `int32` and `int64`, by width. */
    method Int(width: nat) returns (r: Result<int, Raised>)
      modifies this
      ensures Did(IntAt(buf, old(pos), width), r, pos)
      ensures old(pos) >= 0 && old(pos) + width <= |buf| ==>
        r == Success(Signed(FromBE(buf[old(pos)..old(pos) + width]), width)) && pos == old(pos) + width
      ensures old(pos) >= 0 && old(pos) + width > |buf| ==> r == Failure(StructError)
      ensures r.Failure? ==> pos == old(pos)
    {
      var i := if pos < 0 then pos + |buf| else pos;
      if !(0 <= i && i + width <= |buf|) {
        return Failure(StructError);
      }
      r := Success(Signed(FromBE(buf[i..i + width]), width));
      pos := pos + width;
    }

    method String() returns (r: Result<Text, Raised>)
      modifies this
      ensures Did(StringAt(buf, old(pos)), r, pos)
      ensures old(pos) >= 0 && r.Success? ==>
        && old(pos) < pos <= |buf| && buf[pos - 1] == 0 && r.value == buf[old(pos)..pos - 1]
        && (forall i :: old(pos) <= i < pos - 1 ==> buf[i] != 0) && ValidUtf8(r.value)
      ensures r.Failure? ==> pos == old(pos)
    {
      var end := ZeroFrom(buf, if pos < 0 then Clamp(pos, |buf|) else pos);
      if end.None? {
        return Failure(ValueError);
      }
      r := DecodeText(Slice(buf, pos, end.value));
      if r.Success? {
        pos := end.value + 1;
      }
    }

    method Take(n: int) returns (b: bytes)
      modifies this
      ensures (b, pos) == TakeAt(buf, old(pos), n)
      ensures pos == old(pos) + n
      ensures 0 <= old(pos) <= |buf| && n >= 0 ==>
        b == if old(pos) + n <= |buf| then buf[old(pos)..old(pos) + n] else buf[old(pos)..]
    {
      b := Slice(buf, pos, pos + n);
      pos := pos + n;
    }
  }

  method ReadColumn(r: Reader) returns (res: Result<Text, Raised>)
    modifies r
    ensures Did(ColumnAt(r.buf, old(r.pos)), res, r.pos)
  {
    var _ :- r.Int8();
    var name :- r.String();
    var _ :- r.Int(4);
    var _ :- r.Int(4);
    res := Success(name);
  }

  method ReadColumns(r: Reader, n: int) returns (res: Result<seq<Text>, Raised>)
    modifies r
    ensures Did(ColumnsAt(r.buf, old(r.pos), n, []), res, r.pos)
  {
    hide ColumnAt;
    var columns: seq<Text> := [];
    for i := 0 to Max(n, 0)
      invariant ColumnsAt(r.buf, old(r.pos), n, []) == ColumnsAt(r.buf, r.pos, n - i, columns)
    {
      var column :- ReadColumn(r);
      columns := columns + [column];
    }
    res := Success(columns);
  }

  /** `_cache_relation`, returning the entry to store instead of storing it. */
  method ReadRelation(r: Reader) returns (res: Result<(int, Cached), Raised>)
    modifies r
    ensures Did(RelationAt(r.buf, old(r.pos)), res, r.pos)
  {
    hide StringAt, IntAt, Int8At, ColumnsAt, FromBE, Signed, ValidUtf8;
    var oid :- r.Int(4);
    var _ :- r.String();
    var name :- r.String();
    var _ :- r.Int8();
    var n :- r.Int(2);
    var columns :- ReadColumns(r, n);
    res := Success((oid, Cached(name, columns)));
  }

  method ReadTuple(cache: Cache, r: Reader, oid: int) returns (res: Result<map<Text, Value>, Raised>)
    modifies r
    ensures Did(TupleAt(cache, r.buf, old(r.pos), oid), res, r.pos)
  {
    if oid !in cache {
      return Failure(KeyError);
    }
    var columns := cache[oid].columns;
    var n :- r.Int(2);
    var row: map<Text, Value> := map[];
    var i := 0;
    ghost var start := r.pos;
    while i < n
      invariant 0 <= i <= Max(n, 0)
      invariant ValuesAt(r.buf, start, columns, 0, n, map[]) == ValuesAt(r.buf, r.pos, columns, i, n, row)
    {
      var kind := r.Char();
      if i >= |columns| {
        return Failure(IndexError);
      }
      if kind == TAG_NULL {
        row := row[columns[i] := Null];
      } else if kind == TAG_UNCHANGED {
        row := row[columns[i] := Unchanged];
      } else {
        var length :- r.Int(4);
        var raw := r.Take(length);
        var text :- DecodeText(raw);
        row := row[columns[i] := Str(text)];
      }
      i := i + 1;
    }
    res := Success(row);
  }

  /** `_decode_pgoutput` up to the publish, which the consumer does itself. */
  method Decode(cache: Cache, payload: bytes) returns (res: Result<Decoded, Raised>)
    ensures res == DecodeMessage(cache, payload)
  {
    var r := new Reader(payload);
    var tag := r.Char();
    if tag == TAG_RELATION {
      var entry :- ReadRelation(r);
      res := Success(Decoded(cache[entry.0 := entry.1], None, r.pos));
    } else if tag == TAG_INSERT {
      var oid :- r.Int(4);
      var _ := r.Char();
      var row :- ReadTuple(cache, r, oid);
      var event :- EventFor(cache, oid, row);
      res := Success(Decoded(cache, event, r.pos));
    } else if tag == TAG_UPDATE {
      var oid :- r.Int(4);
      var kind := r.Char();
      if kind == TAG_KEY || kind == TAG_OLD {
        var _ :- ReadTuple(cache, r, oid);
        kind := r.Char();
      }
      var row :- ReadTuple(cache, r, oid);
      var event :- EventFor(cache, oid, row);
      res := Success(Decoded(cache, event, r.pos));
    } else {
      res := Success(Decoded(cache, None, r.pos));
    }
  }
}
