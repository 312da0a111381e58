// src/common/message.{h,cpp} as the code runs it: integers byte by byte, strings
// read at a position, and message objects that fill up fragment by fragment. Each
// method is tied to the functions of Wire on the bytes it was given so far.

module Codec {
  import opened Structures
  import opened Wire

  /******* Integers *******/

  // An integer's bytes in the memory of a little-endian machine.
  function LE(n: nat, w: nat): (r: seq<byte>)
    ensures |r| == w
  {
    if w == 0 then [] else [n % 256] + LE(n / 256, w - 1)
  }

  lemma BEOfShift(r: nat, b: byte, w: nat)
    ensures BE(256 * r + b, w + 1) == BE(r, w) + [b]
  {
    assert (256 * r + b) % 256 == b && (256 * r + b) / 256 == r;
  }

  // What memcpy into an integer reads.
  function UnLE(s: seq<byte>): nat {
    if s == [] then 0 else s[0] + 256 * UnLE(s[1..])
  }

  // The first byte of BE(n, w) is the last one taken off n.
  lemma {:induction false} LEOfShift(r: nat, b: byte, w: nat)
    requires r < Pow256(w)
    ensures LE(256 * r + b, w + 1) == [b] + LE(r, w)
  {
    assert (256 * r + b) % 256 == b && (256 * r + b) / 256 == r;
  }

  lemma {:induction false} UnLEIs(s: seq<byte>)
    ensures UnLE(s) < Pow256(|s|) && LE(UnLE(s), |s|) == s
  {
    if s != [] {
      UnLEIs(s[1..]);
      LEOfShift(UnLE(s[1..]), s[0], |s| - 1);
      assert s == [s[0]] + s[1..];
    }
  }

  lemma SwapStep(left: nat, w: nat, ret: nat, i: nat)
    requires w > 0 && ret < Pow256(i)
    ensures 256 * ret + left % 256 < Pow256(i + 1)
    ensures BE(left, w) + LE(ret, i) == BE(left / 256, w - 1) + LE(256 * ret + left % 256, i + 1)
    ensures BE(ret, i) + LE(left, w) == BE(256 * ret + left % 256, i + 1) + LE(left / 256, w - 1)
  {
    var b := left % 256;
    LEOfShift(ret, b, i);
    BEOfShift(ret, b, i);
    Assoc(BE(left / 256, w - 1), [b], LE(ret, i));
    Assoc(BE(ret, i), [b], LE(left / 256, w - 1));
  }

  // byte_swap: the memory of the result is n in network order, and swapping again
  // gives n back.
  method ByteSwap(n: nat, size: nat) returns (ret: nat)
    requires n < Pow256(size)
    ensures ret < Pow256(size)
    ensures LE(ret, size) == BE(n, size)
    ensures BE(ret, size) == LE(n, size)
  {
    ret := 0;
    var left := n;
    var i := 0;
    while i < size
      invariant 0 <= i <= size
      invariant ret < Pow256(i)
      invariant BE(n, size) == BE(left, size - i) + LE(ret, i)
      invariant LE(n, size) == BE(ret, i) + LE(left, size - i)
    {
      SwapStep(left, size - i, ret, i);
      ret := 256 * ret + left % 256;
      left := left / 256;
      i := i + 1;
    }
  }

  // append_int of a w-byte type: n is narrowed to it first.
  method AppendInt(s: seq<byte>, n: nat, w: nat) returns (r: seq<byte>)
    ensures r == s + BE(n, w)
  {
    BEOfLow(n, w);
    var swapped := ByteSwap(n % Pow256(w), w);
    r := s + LE(swapped, w);
  }

  method AppendString(s: seq<byte>, o: Str) returns (r: seq<byte>)
    ensures r == s + Text(o)
  {
    r := AppendInt(s, |o|, 4);
    Assoc(s, BE(|o|, 4), o);
    r := r + o;
  }

  // Only the low w bytes of n are written.
  lemma {:induction false} BEOfLow(n: nat, w: nat)
    ensures n % Pow256(w) < Pow256(w) && BE(n % Pow256(w), w) == BE(n, w)
  {
    if w > 0 {
      var p := Pow256(w - 1);
      LowDigits(n, p);
      BEOfLow(n / 256, w - 1);
    }
  }

  lemma LowDigits(n: nat, p: nat)
    requires p > 0
    ensures n % (256 * p) / 256 == n / 256 % p && n % (256 * p) % 256 == n % 256
  {
    var q, r := n / 256, n % 256;
    var a, b := q / p, q % p;
    assert n == 256 * (p * a + b) + r;
    assert n == 256 * p * a + (256 * b + r);
    assert 256 * b + r < 256 * p;
    Remainder(n, 256 * p, a, 256 * b + r);
  }

  lemma Remainder(n: nat, d: nat, q: nat, r: nat)
    requires d > 0 && r < d && n == d * q + r
    ensures n % d == r
  {
    assert n == d * (n / d) + n % d;
    Monotone(d, q + 1, n / d);
    Monotone(d, n / d + 1, q);
  }

  lemma Monotone(d: nat, a: nat, b: nat)
    ensures a <= b ==> d * a <= d * b
  {
  }

  // decode_int at pos: the integer there, and where it ends.
  method DecodeInt(s: seq<byte>, pos: nat, w: nat) returns (ok: bool, end: nat, n: nat)
    requires pos <= |s|
    ensures ok == TakeInt(s[pos..], w).Some? && pos <= end <= |s|
    ensures ok ==> TakeInt(s[pos..], w) == Some((n, s[end..])) && n < Pow256(w)
  {
    if pos + w > |s| { return false, pos, 0; }
    UnLEIs(s[pos..pos + w]);
    n := ByteSwap(UnLE(s[pos..pos + w]), w);
    UnBEofBE(n, w);
    assert s[pos..][..w] == s[pos..pos + w] && s[pos..][w..] == s[pos + w..];
    ok, end := true, pos + w;
  }

  method DecodeString(s: seq<byte>, pos: nat) returns (ok: bool, end: nat, o: Str)
    requires pos <= |s|
    ensures ok == TakeText(s[pos..]).Some? && pos <= end <= |s|
    ensures ok ==> TakeText(s[pos..]) == Some((o, s[end..]))
  {
    var n;
    o := [];
    ok, end, n := DecodeInt(s, pos, 4);
    if !ok { return; }
    if end + n > |s| { return false, end, o; }
    assert s[end..][..n] == s[end..end + n] && s[end..][n..] == s[end + n..];
    o, end := s[end..end + n], end + n;
  }

  /******* encode_body *******/

  lemma LeftToRight(a: seq<byte>, b: seq<byte>, c: seq<byte>, d: seq<byte>, e: seq<byte>, f: seq<byte>)
    ensures ((((a + b) + c) + d) + e) + f == a + (b + (c + (d + (e + f))))
  {
    Assoc((((a + b) + c) + d), e, f);
    Assoc(((a + b) + c), d, e + f);
    Assoc(a + b, c, d + (e + f));
    Assoc(a, b, c + (d + (e + f)));
  }

  method EncodeCreateFileReq(b: Body) returns (body: seq<byte>)
    requires b.CreateFileReq?
    ensures body == EncodeBody(b)
  {
    var CreateFileReq(cs, fp, fs, p, rp, fn) := b;
    body := AppendInt([], cs, 4);
    body := AppendInt(body, fp, 4);
    body := AppendInt(body, fs, 8);
    body := AppendString(body, p);
    body := AppendString(body, rp);
    body := AppendString(body, fn);
    LeftToRight(BE(cs, 4), BE(fp, 4), BE(fs, 8), Text(p), Text(rp), Text(fn));
  }

  method EncodeNumbers(b: Body) returns (body: seq<byte>)
    requires b.SendFileReq?
    ensures body == (((BE(b.maxChainLen, 2) + BE(b.compressType, 2)) + BE(b.originSize, 4)) + BE(b.crc32, 4))
                    + BE(b.offset, 8)
  {
    body := AppendInt([], b.maxChainLen, 2);
    body := AppendInt(body, b.compressType, 2);
    body := AppendInt(body, b.originSize, 4);
    body := AppendInt(body, b.crc32, 4);
    body := AppendInt(body, b.offset, 8);
  }

  method EncodeSendFileReq(b: Body) returns (body: seq<byte>)
    requires b.SendFileReq?
    ensures body == EncodeBody(b)
  {
    body := EncodeNumbers(b);
    body := AppendString(body, b.fileToken);
    LeftToRight(BE(b.maxChainLen, 2), BE(b.compressType, 2), BE(b.originSize, 4), BE(b.crc32, 4), BE(b.offset, 8),
                Text(b.fileToken));
  }

  // The kinds of one token, or of a byte and a token.
  method EncodeSmall(b: Body) returns (body: seq<byte>)
    requires b.CloseFileReq? || b.DeleteFileReq? || b.CreateFileResp?
    ensures body == EncodeBody(b)
  {
    body := [];
    if b.CloseFileReq? { body := AppendInt(body, b.waitClose, 1); }
    body := AppendString(body, b.fileToken);
  }

  method EncodeSetChainReq(b: Body) returns (body: seq<byte>)
    requires b.SetChainReq?
    ensures body == EncodeBody(b)
  {
    var ts := b.targets;
    body := AppendString([], b.fileToken);
    body := AppendInt(body, |ts|, 4);
    Assoc(Text(b.fileToken), BE(|ts|, 4), EncodeTargets(ts));
    var i := 0;
    while i < |ts|
      invariant 0 <= i <= |ts|
      invariant body + EncodeTargets(ts[i..]) == EncodeBody(b)
    {
      TargetsFrom(body, ts, i);
      body := AppendTarget(body, ts[i]);
      i := i + 1;
    }
    assert body + [] == body;
  }

  lemma TargetsFrom(body: seq<byte>, ts: seq<ChainTarget>, i: nat)
    requires i < |ts|
    ensures body + EncodeTargets(ts[i..]) == (body + EncodeTarget(ts[i])) + EncodeTargets(ts[i + 1..])
  {
    assert ts[i..][0] == ts[i] && ts[i..][1..] == ts[i + 1..];
    Assoc(body, EncodeTarget(ts[i]), EncodeTargets(ts[i + 1..]));
  }

  method AppendTarget(body: seq<byte>, t: ChainTarget) returns (r: seq<byte>)
    ensures r == body + EncodeTarget(t)
  {
    r := AppendString(body, t.host);
    r := AppendInt(r, t.port, 2);
    r := AppendString(r, t.fileToken);
    Assoc(body + Text(t.host), BE(t.port, 2), Text(t.fileToken));
    Assoc(body, Text(t.host), BE(t.port, 2) + Text(t.fileToken));
  }

  /******* decode_body *******/

  method DecodeCreateFileReqBody(s: seq<byte>) returns (r: Option<Body>)
    ensures r == DecodeCreateFileReq(s)
  {
    var ok, pos;
    var cs, fp, fs;
    var p, rp, fn;
    r, pos := None, 0;
    assert s[pos..] == s;
    ok, pos, cs := DecodeInt(s, pos, 4); if !ok { return; }
    ok, pos, fp := DecodeInt(s, pos, 4); if !ok { return; }
    ok, pos, fs := DecodeInt(s, pos, 8); if !ok { return; }
    ok, pos, p := DecodeString(s, pos);  if !ok { return; }
    ok, pos, rp := DecodeString(s, pos); if !ok { return; }
    ok, pos, fn := DecodeString(s, pos); if !ok { return; }
    if pos == |s| { r := Some(CreateFileReq(cs, fp, fs, p, rp, fn)); }
  }

  method DecodeSendFileReqBody(s: seq<byte>) returns (r: Option<Body>)
    ensures r == DecodeSendFileReq(s)
  {
    var ok, pos;
    var m, ct, os, crc, off;
    var t;
    r, pos := None, 0;
    assert s[pos..] == s;
    ok, pos, m := DecodeInt(s, pos, 2);   if !ok { return; }
    ok, pos, ct := DecodeInt(s, pos, 2);  if !ok { return; }
    ok, pos, os := DecodeInt(s, pos, 4);  if !ok { return; }
    ok, pos, crc := DecodeInt(s, pos, 4); if !ok { return; }
    ok, pos, off := DecodeInt(s, pos, 8); if !ok { return; }
    ok, pos, t := DecodeString(s, pos);   if !ok { return; }
    if pos == |s| { r := Some(SendFileReq(m, ct, os, crc, off, t)); }
  }

  method DecodeCloseFileReqBody(s: seq<byte>) returns (r: Option<Body>)
    ensures r == DecodeCloseFileReq(s)
  {
    var ok, pos, w, t;
    r, pos := None, 0;
    assert s[pos..] == s;
    ok, pos, w := DecodeInt(s, pos, 1); if !ok { return; }
    ok, pos, t := DecodeString(s, pos); if !ok { return; }
    if pos == |s| { r := Some(CloseFileReq(w, t)); }
  }

  // The three bodies that are one token.
  method DecodeTokenBody(s: seq<byte>) returns (r: Option<Str>)
    ensures r == match TakeText(s) case None => None case Some((t, rest)) => if rest == [] then Some(t) else None
  {
    r := None;
    assert s[0..] == s;
    var ok, pos, t := DecodeString(s, 0);
    if ok && pos == |s| { r := Some(t); }
  }

  // ts has been read off the front of s, and rest is next.
  ghost predicate Read(s: seq<byte>, ts: seq<ChainTarget>, rest: seq<byte>) {
    AllFit(TargetFits, ts) && s == EncodeTargets(ts) + rest
  }

  lemma ReadOneMore(s: seq<byte>, ts: seq<ChainTarget>, rest: seq<byte>, t: ChainTarget, s1: seq<byte>)
    requires Read(s, ts, rest) && TakeTarget(rest) == Some((t, s1))
    ensures Read(s, ts + [t], s1)
  {
    TakeTargetIs(rest, t, s1);
    PutSnoc(EncodeTarget, ts, t);
    Assoc(EncodeTargets(ts), EncodeTarget(t), s1);
  }

  method DecodeTarget(s: seq<byte>, pos: nat) returns (ok: bool, end: nat, t: ChainTarget)
    requires pos <= |s|
    ensures ok == TakeTarget(s[pos..]).Some? && pos <= end <= |s|
    ensures ok ==> TakeTarget(s[pos..]) == Some((t, s[end..]))
  {
    var host, token;
    var port;
    t := ChainTarget([], 0, []);
    ok, end, host := DecodeString(s, pos);  if !ok { return; }
    ok, end, port := DecodeInt(s, end, 2);  if !ok { return; }
    ok, end, token := DecodeString(s, end); if !ok { return; }
    t := ChainTarget(host, port, token);
  }

  // The loop of SetChainReq::decode_body: it ends with all targets read, or before
  // one that is malformed.
  method DecodeTargets(s: seq<byte>, start: nat, size: nat) returns (ok: bool, pos: nat, targets: seq<ChainTarget>)
    requires start <= |s|
    ensures pos <= |s| && Read(s[start..], targets, s[pos..])
    ensures if ok then |targets| == size else |targets| < size && TakeTarget(s[pos..]).None?
  {
    pos, targets := start, [];
    assert [] + s[start..] == s[start..];
    var i := 0;
    while i < size
      invariant i == |targets| <= size && pos <= |s|
      invariant Read(s[start..], targets, s[pos..])
    {
      var t, end;
      ok, end, t := DecodeTarget(s, pos);
      if !ok { return; }
      ReadOneMore(s[start..], targets, s[pos..], t, s[end..]);
      pos, targets := end, targets + [t];
      i := i + 1;
    }
    ok := true;
  }

  lemma ReadDecides(s: seq<byte>, ts: seq<ChainTarget>, rest: seq<byte>, n: nat)
    requires Read(s, ts, rest)
    ensures |ts| == n ==> TakeTargets(s, n) == Some((ts, rest))
    ensures |ts| < n && TakeTarget(rest).None? ==> TakeTargets(s, n).None?
  {
    TargetIsExact();
    if |ts| == n { TakeManyFinds(TakeTarget, EncodeTarget, TargetFits, ts, rest); }
    if |ts| < n && TakeTarget(rest).None? { TakeManyStops(TakeTarget, EncodeTarget, TargetFits, ts, rest, n); }
  }

  method DecodeSetChainReqBody(s: seq<byte>) returns (r: Option<Body>)
    ensures r == DecodeSetChainReq(s)
  {
    var ok, pos, token, size, targets;
    r, pos := None, 0;
    assert s[pos..] == s;
    ok, pos, token := DecodeString(s, pos);          if !ok { return; }
    ok, pos, size := DecodeInt(s, pos, 4);  if !ok { return; }
    ghost var rest := s[pos..];
    ok, pos, targets := DecodeTargets(s, pos, size);
    ReadDecides(rest, targets, s[pos..], size);
    if !ok { return; }
    if pos == |s| { r := Some(SetChainReq(token, targets)); }
  }

  /******* Messages *******/

  // The fields of a message kind before anything is decoded into them.
  function Blank(code: nat): Body
    requires Known(code)
  {
    if code == 0x0001 then CreateFileReq(0, 0, 0, [], [], [])
    else if code == 0x0002 then SendFileReq(0, 0, 0, 0, 0, [])
    else if code == 0x0003 then CloseFileReq(0, [])
    else if code == 0x0004 then DeleteFileReq([])
    else if code == 0x0011 then SetChainReq([], [])
    else if code == 0x1001 then CreateFileResp([])
    else if code == 0x1002 then SendFileResp
    else if code == 0x1003 then CloseFileResp
    else if code == 0x1004 then DeleteFileResp
    else SetChainResp
  }

  // What a message needing need bytes takes of all it is offered.
  function Wanted(all: seq<byte>, need: nat): (r: seq<byte>)
    ensures |r| == Min(|all|, need)
  {
    all[..Min(|all|, need)]
  }

  lemma TakeTwice(have: seq<byte>, buf: seq<byte>, m: nat, n: nat)
    requires m + n <= |buf|
    ensures (have + buf[..m]) + buf[m..][..n] == have + buf[..m + n]
  {
  }

  lemma WantedIs(have: seq<byte>, buf: seq<byte>, n: nat, need: nat)
    requires n <= |buf| && |have| + n == Min(|have| + |buf|, need)
    ensures have + buf[..n] == Wanted(have + buf, need)
  {
  }

  lemma NotYet(h: Header, all: seq<byte>)
    requires |all| < h.bodyLen + h.dataLen
    ensures Wanted(all, h.bodyLen + h.dataLen) == all && ParsePayload(h, all) == More
  {
  }

  lemma RestIgnored(h: Header, all: seq<byte>)
    requires |all| >= h.bodyLen + h.dataLen
    ensures ParsePayload(h, all) == ParsePayload(h, Wanted(all, h.bodyLen + h.dataLen))
  {
    Cut(all, h.bodyLen + h.dataLen);
    PayloadVerdictStays(h, all[..h.bodyLen + h.dataLen], all[h.bodyLen + h.dataLen..]);
  }

  lemma Narrowed(a: int, d: nat)
    ensures (a - d % U32) % U32 == (a - d) % U32
  {
    var x, q := a - d % U32, d / U32;
    assert a - d == x - U32 * q;
  }

  lemma CodeBack(code: nat, s: seq<byte>)
    ensures DecodeBody(code, s).Some? ==> Code(DecodeBody(code, s).value) == code
  {
    if DecodeBody(code, s).Some? { BodyIsCanonical(code, s, DecodeBody(code, s).value); }
  }

  lemma SmallLen(h: Header)
    requires HeaderFits(h)
    ensures h.dataLen % U32 == h.dataLen
  {
    Widths();
  }

  lemma ErrorThere(e: int)
    requires -0x8000 <= e < 0x8000
    ensures Int16(U16(e)) == e
  {
  }

  // A MessageBase together with the fields of the class derived from it.
  class MessageBase {
    var magic: nat
    var version: nat
    var command: nat
    var error: int
    var bodyLen: nat
    var dataLen: nat
    var dataPos: nat
    var body: seq<byte>
    var data: array?<byte>
    var dataView: seq<byte>
    var fields: Body

    constructor (fields: Body)
      ensures Outgoing() && fresh(this) && Msg() == Message(0, fields, [])
    {
      this.magic, this.version, this.command, this.error := MAGIC, VERSION, Code(fields), 0;
      this.bodyLen, this.dataLen, this.dataPos := 0, 0, 0;
      this.body, this.data, this.dataView, this.fields := [], null, [], fields;
    }

    // create_message and the move of the header over it.
    constructor Incoming(h: Header)
      requires HeaderOk(h) && HeaderFits(h)
      ensures Filling() && fresh(this) && Head() == h && data == null && Collected() == []
    {
      this.magic, this.version, this.command, this.error := h.magic, h.version, h.command, Int16(h.error);
      this.bodyLen, this.dataLen, this.dataPos := h.bodyLen, h.dataLen, 0;
      this.body, this.data, this.dataView, this.fields := [], null, [], Blank(h.command);
      Widths();
      ErrorBack(h.error);
    }

    function Head(): Header
      reads this
    {
      Header(magic, version, command, U16(error), bodyLen, dataLen)
    }

    function Msg(): Message
      reads this
    {
      Message(error, fields, dataView)
    }

    // Ready for encode.
    ghost predicate Outgoing()
      reads this
    {
      && magic == MAGIC && version == VERSION && command == Code(fields)
      && dataLen == |dataView| % U32
    }

    // Some of the message may be still to come.
    ghost predicate Filling()
      reads this, data
    {
      && HeaderOk(Head()) && HeaderFits(Head()) && fields == Blank(command) && -0x8000 <= error < 0x8000
      && |body| <= bodyLen && dataPos <= dataLen && dataView == []
      && (dataPos > 0 ==> |body| == bodyLen && data != null)
      && (data != null ==> |body| == bodyLen && data.Length == dataLen)
    }

    ghost function Collected(): (r: seq<byte>)
      requires Filling()
      reads this, data
      ensures |r| == |body| + dataPos
    {
      body + (if data == null then [] else data[..dataPos])
    }

    // std::string::append, of the part of buf that belongs to the body.
    method FillBody(buf: seq<byte>) returns (n: nat)
      requires Filling() && |body| < bodyLen
      modifies this`body
      ensures Filling() && Head() == old(Head()) && n == Min(|buf|, bodyLen - old(|body|))
      ensures Collected() == old(Collected()) + buf[..n] && |body| == old(|body|) + n && dataPos == 0
    {
      n := Min(|buf|, bodyLen - |body|);
      assert body + [] == body;
      body := body + buf[..n];
      assert body + [] == body;
    }

    // The memcpy into the data buffer, which is allocated when it is first needed.
    method FillData(buf: seq<byte>)
      requires Filling() && |body| == bodyLen && dataPos < dataLen
      modifies this`data, this`dataPos, data
      ensures Filling() && Head() == old(Head()) && data != null && (data == old(data) || fresh(data))
      ensures dataPos == old(dataPos) + Min(|buf|, dataLen - old(dataPos))
      ensures Collected() == old(Collected()) + buf[..dataPos - old(dataPos)]
    {
      if data == null {
        data := new byte[dataLen];
      }
      var n := Min(|buf|, dataLen - dataPos);
      ghost var before := data[..dataPos];
      forall k | 0 <= k < n { data[dataPos + k] := buf[k]; }
      assert data[..dataPos + n] == before + buf[..n];
      dataPos := dataPos + n;
      Assoc(body, before, buf[..n]);
    }

    // The part of append_body before decode_body.
    method Absorb(buf: seq<byte>) returns (full: bool)
      requires Filling()
      modifies this`body, this`data, this`dataPos, data
      ensures Filling() && Head() == old(Head()) && (data == old(data) || fresh(data))
      ensures Collected() == Wanted(old(Collected()) + buf, bodyLen + dataLen)
      ensures full == (|old(Collected()) + buf| >= bodyLen + dataLen)
    {
      ghost var have := Collected();
      var m := 0;
      assert have + buf[..0] == have;
      if |body| < bodyLen {
        m := FillBody(buf);
        if |body| < bodyLen {
          WantedIs(have, buf, m, bodyLen + dataLen);
          return false;
        }
      }
      if dataPos < dataLen {
        ghost var at := dataPos;
        FillData(buf[m..]);
        TakeTwice(have, buf, m, dataPos - at);
        WantedIs(have, buf, m + (dataPos - at), bodyLen + dataLen);
        return dataPos == dataLen;
      }
      WantedIs(have, buf, m, bodyLen + dataLen);
      full := true;
    }

    // decode_body of the kind that command names.
    method DecodeFields() returns (ok: bool)
      requires Known(command)
      modifies this`fields
      ensures ok == DecodeBody(command, body).Some?
      ensures fields == if ok then DecodeBody(command, body).value else old(fields)
    {
      var b: Option<Body>;
      if command == 0x0001 { b := DecodeCreateFileReqBody(body); }
      else if command == 0x0002 { b := DecodeSendFileReqBody(body); }
      else if command == 0x0003 { b := DecodeCloseFileReqBody(body); }
      else if command == 0x0011 { b := DecodeSetChainReqBody(body); }
      else if command == 0x0004 || command == 0x1001 {
        var t := DecodeTokenBody(body);
        b := if t.None? then None
             else if command == 0x0004 then Some(DeleteFileReq(t.value))
             else Some(CreateFileResp(t.value));
      }
      else { b := if body == [] then Some(Blank(command)) else None; }
      ok := b.Some?;
      if ok { fields := b.value; }
    }

    // The part of append_body after everything has come.
    method Finish(ghost given: seq<byte>) returns (ret: int)
      requires Filling() && |given| >= bodyLen + dataLen && Collected() == Wanted(given, bodyLen + dataLen)
      modifies this`dataView, this`fields
      ensures Head() == old(Head())
      ensures ret == 1 ==> Outgoing()
      ensures ret == 1 || ret == -1
      ensures ParsePayload(Head(), given) ==
              if ret == 1 then Done(Msg(), HEADER_SIZE + bodyLen + dataLen) else Bad(EBADMSG)
    {
      ghost var all := Collected();
      assert dataLen > 0 ==> data[..dataPos] == data[..dataLen];
      if dataLen > 0 { dataView := data[..dataLen]; }
      assert all == body + dataView;
      Slices(body, dataView, []);
      assert body + dataView + [] == all;
      var ok := DecodeFields();
      CodeBack(command, body);
      SmallLen(Head());
      ErrorThere(error);
      RestIgnored(Head(), given);
      ret := if ok then 1 else -1;
    }

    method AppendBody(buf: seq<byte>) returns (ret: int)
      requires Filling()
      modifies this`body, this`data, this`dataPos, this`dataView, this`fields, data
      ensures Head() == old(Head()) && (data == old(data) || fresh(data))
      ensures -1 <= ret <= 1
      ensures ret == 0 ==> Filling() && Collected() == old(Collected()) + buf
      ensures ret == 1 ==> Outgoing()
      ensures ParsePayload(Head(), old(Collected()) + buf) == if ret == 0 then More
              else if ret == 1 then Done(Msg(), HEADER_SIZE + bodyLen + dataLen)
              else Bad(EBADMSG)
    {
      ghost var all := Collected() + buf;
      var full := Absorb(buf);
      if full {
        ret := Finish(all);
      } else {
        NotYet(Head(), all);
        ret := 0;
      }
    }

    // encode_body of the kind of message this is: the vectors it adds.
    method EncodeFields() returns (vectors: seq<seq<byte>>)
      requires Outgoing()
      modifies this`body
      ensures Outgoing() && Msg() == old(Msg()) && Flatten(vectors) == Payload(Msg())
    {
      if fields.SendFileReq? {
        body := EncodeSendFileReq(fields);
        OneOrTwo(body, dataView);
        vectors := if dataView == [] then [body] else [body, dataView];
        return;
      }
      body := [];
      if fields.CreateFileReq? { body := EncodeCreateFileReq(fields); }
      else if fields.SetChainReq? { body := EncodeSetChainReq(fields); }
      else if fields.CloseFileReq? || fields.DeleteFileReq? || fields.CreateFileResp? { body := EncodeSmall(fields); }
      else { return []; }
      OneOrTwo(body, []);
      vectors := [body];
    }

    method SetBodyLen(blen: nat)
      requires Outgoing() && blen == |Payload(Msg())|
      modifies this`bodyLen
      ensures Outgoing() && Msg() == old(Msg()) && Head() == HeaderOf(Msg())
    {
      Narrowed(blen, |dataView|);
      bodyLen := (blen - dataLen) % U32;
    }

    // set_data and set_data_view, which differ in who owns the bytes.
    method SetData(d: seq<byte>)
      requires Outgoing()
      modifies this`dataPos, this`dataLen, this`data, this`dataView
      ensures Outgoing() && Msg() == old(Msg()).(data := d)
    {
      dataPos, dataLen, data, dataView := |d| % U32, |d| % U32, null, d;
    }

    method SetError(e: int)
      requires Outgoing()
      modifies this`error
      ensures Outgoing() && Msg() == old(Msg()).(error := Int16(e))
    {
      error := Int16(e);
    }
  }

  lemma OneOrTwo(a: seq<byte>, b: seq<byte>)
    ensures Flatten([a]) == a && Flatten([a, b]) == a + b && (b == [] ==> a + b == a)
  {
    assert [a, b][1..] == [b] && [a][1..] == [] && [b][1..] == [];
    assert Flatten([b]) == b + [];
  }

  lemma FlattenCons(a: seq<byte>, rest: seq<seq<byte>>)
    ensures Flatten([a] + rest) == a + Flatten(rest)
  {
    assert ([a] + rest)[1..] == rest;
  }

  method EncodeHead(h: Header) returns (head: seq<byte>)
    ensures head == EncodeHeader(h)
  {
    head := AppendInt([], h.magic, 2);
    head := AppendInt(head, h.version, 2);
    head := AppendInt(head, h.command, 2);
    head := AppendInt(head, h.error, 2);
    head := AppendInt(head, h.bodyLen, 4);
    head := AppendInt(head, h.dataLen, 4);
    LeftToRight(BE(h.magic, 2), BE(h.version, 2), BE(h.command, 2), BE(h.error, 2), BE(h.bodyLen, 4), BE(h.dataLen, 4));
  }

  method DecodeHead(head: seq<byte>) returns (h: Header)
    requires |head| == HEADER_SIZE
    ensures TakeHeader(head) == Some((h, []))
  {
    HeaderIsCanonical(head);
    var ok, pos, magic, version, command, error, bodyLen, dataLen;
    assert head[0..] == head;
    ok, pos, magic := DecodeInt(head, 0, 2);
    ok, pos, version := DecodeInt(head, pos, 2);
    ok, pos, command := DecodeInt(head, pos, 2);
    ok, pos, error := DecodeInt(head, pos, 2);
    ok, pos, bodyLen := DecodeInt(head, pos, 4);
    ok, pos, dataLen := DecodeInt(head, pos, 4);
    h := Header(magic, version, command, error, bodyLen, dataLen);
  }

  lemma ParseHead(limit: nat, h: Header, p: seq<byte>)
    requires HeaderFits(h)
    ensures Parse(limit, EncodeHeader(h) + p) ==
            if !HeaderOk(h) then Bad(EBADMSG) else if TooLarge(limit, h) then Bad(EMSGSIZE) else ParsePayload(h, p)
  {
    HeaderFinds(h, p);
  }

  lemma TakenHead(head: seq<byte>, h: Header)
    requires TakeHeader(head) == Some((h, [])) && |head| == HEADER_SIZE
    ensures HeaderFits(h) && head == EncodeHeader(h)
  {
    HeaderIsCanonical(head);
    assert EncodeHeader(h) + [] == EncodeHeader(h);
  }

  // What goes over a connection: a message, or one on its way.
  class FcopyMessage {
    const limit: nat
    var head: seq<byte>
    var message: MessageBase?

    constructor (limit: nat)
      ensures this.limit == limit && Receiving() && Absorbed() == []
    {
      this.limit, this.head, this.message := limit, [], null;
      new;
      assert TakeHeader([]).None? by { NoHeaderYet([]); }
    }

    // The header has come and is accepted.
    ghost predicate Started()
      reads this, message, if message == null then null else message.data
    {
      && message != null && message.Filling()
      && head == EncodeHeader(message.Head()) && !TooLarge(limit, message.Head())
    }

    // append has been called, and has returned 0 every time.
    ghost predicate Receiving()
      reads this, message, if message == null then null else message.data
    {
      if message == null then |head| < HEADER_SIZE
      else Started() && |message.Collected()| < message.bodyLen + message.dataLen
    }

    // All that append has been given so far.
    ghost function Absorbed(): seq<byte>
      requires message == null || Started()
      reads this, message, if message == null then null else message.data
    {
      if message == null then head else head + message.Collected()
    }

    method Start(h: Header)
      requires message == null && HeaderOk(h) && HeaderFits(h) && !TooLarge(limit, h) && head == EncodeHeader(h)
      modifies this`message
      ensures Started() && fresh(message) && message.data == null && Absorbed() == head
    {
      message := new MessageBase.Incoming(h);
      assert head + [] == head;
    }

    // The first part of append: the header, and the message object made from it.
    method TakeHead(buf: seq<byte>) returns (ret: int, errno: int, rest: seq<byte>)
      requires message == null && |head| < HEADER_SIZE
      modifies this
      ensures ret == 0 ==> message == null && |head| < HEADER_SIZE && head == old(head) + buf
      ensures ret == 1 ==> Started() && fresh(message) && message.data == null && Absorbed() + rest == old(head) + buf
      ensures ret != 0 && ret != 1 ==> message == null && Parse(limit, old(head) + buf) == Bad(errno)
    {
      var n := Min(HEADER_SIZE - |head|, |buf|);
      Cut(buf, n);
      Assoc(head, buf[..n], buf[n..]);
      head, rest := head + buf[..n], buf[n..];
      if |head| < HEADER_SIZE {
        assert buf[..n] == buf;
        return 0, 0, [];
      }
      var h := DecodeHead(head);
      TakenHead(head, h);
      ParseHead(limit, h, rest);
      if h.magic != MAGIC || h.version != VERSION || !Known(h.command) { return -1, EBADMSG, []; }
      if (h.bodyLen + h.dataLen) % U32 + HEADER_SIZE > limit { return -1, EMSGSIZE, []; }
      Start(h);
      ret, errno := 1, 0;
    }

    // The last part: append_body.
    method TakeRest(rest: seq<byte>) returns (ret: int)
      requires Started()
      modifies message, message.data
      ensures -1 <= ret <= 1 && message == old(message) && head == old(head)
      ensures message.data == old(message.data) || fresh(message.data)
      ensures ret == 0 ==> Receiving() && Absorbed() == old(Absorbed()) + rest
      ensures ret == 1 ==> message.Outgoing()
      ensures Parse(limit, old(Absorbed()) + rest) == if ret == 0 then More
              else if ret == 1 then Done(message.Msg(), HEADER_SIZE + message.bodyLen + message.dataLen)
              else Bad(EBADMSG)
    {
      ghost var have := message.Collected();
      Assoc(head, have, rest);
      ParseHead(limit, message.Head(), have + rest);
      ret := message.AppendBody(rest);
    }

    // append: 0 while the message is not complete, 1 when it is, and -1 with errno
    // when it never will be; bytes after the message are ignored.
    method Append(buf: seq<byte>) returns (ret: int, errno: int)
      requires Receiving()
      modifies this, message, if message == null then null else message.data
      ensures message == old(message) || fresh(message)
      ensures message != null ==>
        message.data == null || fresh(message.data) || (message == old(message) && message.data == old(message.data))
      ensures ret == 0 ==> Receiving() && Absorbed() == old(Absorbed()) + buf
      ensures ret == 1 ==> message != null && message.Outgoing()
      ensures Parse(limit, old(Absorbed()) + buf) ==
              if ret == 0 then More
              else if ret == 1 && message != null then
                Done(message.Msg(), HEADER_SIZE + message.bodyLen + message.dataLen)
              else Bad(errno)
    {
      var rest := buf;
      ret, errno := 1, 0;
      if message == null {
        ret, errno, rest := TakeHead(buf);
        if ret == 0 { NoHeaderYet(head); }
      }
      if ret == 1 {
        ret := TakeRest(rest);
        if ret < 0 { errno := EBADMSG; }
      }
    }

    // What the reader of a connection does with append: fragment after fragment, up to
    // the first nonzero code.
    method Receive(fragments: seq<seq<byte>>) returns (ret: int, errno: int)
      requires Receiving()
      modifies this, message, if message == null then null else message.data
      ensures ret == 1 ==> message != null && message.Outgoing()
      ensures Parse(limit, old(Absorbed()) + Flatten(fragments)) ==
              if ret == 0 then More
              else if ret == 1 && message != null then
                Done(message.Msg(), HEADER_SIZE + message.bodyLen + message.dataLen)
              else Bad(errno)
      decreases |fragments|
    {
      ghost var stream := Absorbed() + Flatten(fragments);
      if fragments == [] {
        assert stream == Absorbed();
        StillMore();
        return 0, 0;
      }
      ghost var before := Absorbed() + fragments[0];
      Assoc(Absorbed(), fragments[0], Flatten(fragments[1..]));
      assert stream == before + Flatten(fragments[1..]);
      ret, errno := Append(fragments[0]);
      if ret == 0 {
        ret, errno := Receive(fragments[1..]);
      } else {
        VerdictStays(limit, before, Flatten(fragments[1..]));
      }
    }

    lemma StillMore()
      requires Receiving()
      ensures Parse(limit, Absorbed()) == More
    {
      if message == null {
        NoHeaderYet(head);
      } else {
        ParseHead(limit, message.Head(), message.Collected());
      }
    }

    method SetMessage(m: MessageBase)
      modifies this`message
      ensures message == m
    {
      message := m;
    }

    // move_message: only a message of the kind asked for leaves.
    method MoveMessage(code: nat) returns (m: MessageBase?)
      modifies this`message
      ensures if old(message) != null && old(message).command == code
              then m == old(message) && message == null
              else m == null && message == old(message)
    {
      m := null;
      if message != null && message.command == code { m, message := message, null; }
    }

    // encode: the vectors, in order, are the encoding of the message.
    method Encode() returns (ret: int, errno: int, vectors: seq<seq<byte>>)
      requires message != null ==> message.Outgoing()
      modifies this`head, if message == null then null else message
      ensures message == old(message)
      ensures if message == null then ret == -1 && errno == EBADMSG
              else ret == |vectors| && message.Outgoing() && message.Msg() == old(message.Msg())
                   && Flatten(vectors) == Wire.Encode(message.Msg())
    {
      vectors := [];
      if message == null { return -1, EBADMSG, []; }
      var bodies := message.EncodeFields();
      var blen := Total(bodies);
      message.SetBodyLen(blen);
      head := EncodeHead(message.Head());
      FlattenCons(head, bodies);
      vectors := [head] + bodies;
      ret, errno := |vectors|, 0;
    }
  }

  // FcopyClient::request: transport is the error of the network task, which is 0 only
  // if a whole message has come back. A reply of another kind than the one asked for
  // is an error as well.
  method Request(req: MessageBase, code: nat, limit: nat, transport: int, fragments: seq<seq<byte>>)
    returns (error: int, resp: MessageBase?, ghost sent: seq<byte>)
    requires req.Outgoing() && (transport == 0 ==> Parse(limit, Flatten(fragments)).Done?)
    modifies req
    ensures req.Outgoing() && req.Msg() == old(req.Msg()) && sent == Wire.Encode(req.Msg())
    ensures transport != 0 ==> error == transport && resp == null
    ensures transport == 0 ==>
              var m := Parse(limit, Flatten(fragments)).msg;
              if Code(m.body) == code then error == 0 && resp != null && resp.Msg() == m
              else error == EBADMSG && resp == null
  {
    var freq := new FcopyMessage(limit);
    freq.SetMessage(req);
    var ret, errno, vectors := freq.Encode();
    error, resp, sent := transport, null, Flatten(vectors);
    if transport != 0 { return; }

    var fresp := new FcopyMessage(limit);
    assert [] + Flatten(fragments) == Flatten(fragments);
    ret, errno := fresp.Receive(fragments);
    resp := fresp.MoveMessage(code);
    if resp == null { error := EBADMSG; }
  }

  // The lengths of the vectors added up.
  method Total(vectors: seq<seq<byte>>) returns (n: nat)
    ensures n == |Flatten(vectors)|
  {
    n := 0;
    var i := 0;
    assert vectors[0..] == vectors;
    while i < |vectors|
      invariant 0 <= i <= |vectors|
      invariant n + |Flatten(vectors[i..])| == |Flatten(vectors)|
    {
      assert vectors[i..][1..] == vectors[i + 1..];
      n := n + |vectors[i]|;
      i := i + 1;
    }
  }
}
