// The wire format of src/common/message.{h,cpp}, as functions on byte strings:
// what encode produces, and what append accepts of a whole stream.

module Wire {
  import opened Structures

  /******* Integers and strings *******/

  function Pow256(w: nat): (r: nat)
    ensures r > 0
  {
    if w == 0 then 1 else 256 * Pow256(w - 1)
  }

  // Big-endian, w bytes.
  function BE(n: nat, w: nat): (r: seq<byte>)
    ensures |r| == w
  {
    if w == 0 then [] else BE(n / 256, w - 1) + [n % 256]
  }

  function UnBE(s: seq<byte>): (r: nat)
    ensures r < Pow256(|s|)
  {
    if s == [] then 0 else 256 * UnBE(s[..|s| - 1]) + s[|s| - 1]
  }

  lemma {:induction false} UnBEofBE(n: nat, w: nat)
    requires n < Pow256(w)
    ensures UnBE(BE(n, w)) == n
    decreases w
  {
    if w > 0 {
      UnBEofBE(n / 256, w - 1);
      assert BE(n, w)[..w - 1] == BE(n / 256, w - 1);
    }
  }

  lemma {:induction false} BEofUnBE(s: seq<byte>)
    ensures BE(UnBE(s), |s|) == s
    decreases |s|
  {
    if s != [] {
      var pre, b := s[..|s| - 1], s[|s| - 1];
      BEofUnBE(pre);
      LastDigit(UnBE(pre), b);
      assert s == pre + [b];
    }
  }

  lemma LastDigit(n: nat, b: byte)
    ensures (256 * n + b) / 256 == n && (256 * n + b) % 256 == b
  {
  }

  // Byte k of w is the digit of weight 256 to the w-1-k.
  lemma {:induction false} BEAt(n: nat, w: nat, k: nat)
    requires k < w
    ensures BE(n, w)[k] == n / Pow256(w - 1 - k) % 256
    decreases w
  {
    if k < w - 1 {
      BEAt(n / 256, w - 1, k);
      DivTwice(n, Pow256(w - 2 - k));
    }
  }

  lemma TimesGrows(d: nat, a: nat, b: nat)
    ensures a <= b ==> d * a <= d * b
  {
  }

  lemma QuotientIs(n: nat, d: nat, q: nat, r: nat)
    requires r < d && n == d * q + r
    ensures n / d == q
  {
    assert n == d * (n / d) + n % d;
    TimesGrows(d, q + 1, n / d);
    TimesGrows(d, n / d + 1, q);
  }

  lemma DivTwice(n: nat, p: nat)
    requires p > 0
    ensures n / 256 / p == n / (256 * p)
  {
    var q := n / 256;
    assert q == p * (q / p) + q % p;
    assert n == (256 * p) * (q / p) + (256 * (q % p) + n % 256);
    QuotientIs(n, 256 * p, q / p, 256 * (q % p) + n % 256);
  }

  lemma Widths()
    ensures Pow256(1) == 0x100 && Pow256(2) == 0x1_0000 && Pow256(4) == 0x1_0000_0000
  {
  }

  const U32: nat := 0x1_0000_0000

  lemma Assoc(a: seq<byte>, b: seq<byte>, c: seq<byte>)
    ensures (a + b) + c == a + (b + c)
  {
  }

  function TakeInt(s: seq<byte>, w: nat): Option<(nat, seq<byte>)> {
    if |s| < w then None else Some((UnBE(s[..w]), s[w..]))
  }

  function Text(o: Str): seq<byte> { BE(|o|, 4) + o }

  function TakeText(s: seq<byte>): Option<(Str, seq<byte>)> {
    match TakeInt(s, 4)
    case None => None
    case Some((n, rest)) => if |rest| < n then None else Some((rest[..n], rest[n..]))
  }

  lemma TakeIntIs(s: seq<byte>, w: nat, n: nat, rest: seq<byte>)
    ensures TakeInt(s, w) == Some((n, rest)) <==> n < Pow256(w) && s == BE(n, w) + rest
  {
    if |s| >= w {
      BEofUnBE(s[..w]);
      assert s == s[..w] + s[w..];
    }
    if n < Pow256(w) && s == BE(n, w) + rest {
      UnBEofBE(n, w);
      assert s[..w] == BE(n, w) && s[w..] == rest;
    }
  }

  lemma Front(o: seq<byte>, rest: seq<byte>)
    ensures (o + rest)[..|o|] == o && (o + rest)[|o|..] == rest
  {
  }

  lemma Cut(r: seq<byte>, n: nat)
    requires n <= |r|
    ensures r == r[..n] + r[n..]
  {
  }

  lemma TakeTextIs(s: seq<byte>, o: Str, rest: seq<byte>)
    ensures TakeText(s) == Some((o, rest)) <==> |o| < U32 && s == Text(o) + rest
  {
    Widths();
    Assoc(BE(|o|, 4), o, rest);
    Front(o, rest);
    TakeIntIs(s, 4, |o|, o + rest);
    if TakeText(s) == Some((o, rest)) {
      var (n, r) := TakeInt(s, 4).value;
      TakeIntIs(s, 4, n, r);
      Cut(r, n);
    }
  }

  /******* Lists *******/

  function PutMany<T>(put: T -> seq<byte>, ts: seq<T>): seq<byte> {
    if ts == [] then [] else put(ts[0]) + PutMany(put, ts[1..])
  }

  function TakeMany<T>(take: seq<byte> -> Option<(T, seq<byte>)>, s: seq<byte>, n: nat): Option<(seq<T>, seq<byte>)>
    decreases n
  {
    if n == 0 then Some(([], s))
    else match take(s)
      case None => None
      case Some((t, s1)) =>
        match TakeMany(take, s1, n - 1)
        case None => None
        case Some((ts, s2)) => Some(([t] + ts, s2))
  }

  predicate AllFit<T>(fits: T -> bool, ts: seq<T>) { forall k :: 0 <= k < |ts| ==> fits(ts[k]) }

  // take reads exactly what put writes of an element that fits.
  ghost predicate Exact<T(!new)>(take: seq<byte> -> Option<(T, seq<byte>)>, put: T -> seq<byte>, fits: T -> bool) {
    && (forall s :: take(s).Some? ==> fits(take(s).value.0) && s == put(take(s).value.0) + take(s).value.1)
    && (forall t, rest :: fits(t) ==> take(put(t) + rest) == Some((t, rest)))
  }

  lemma PutCons<T>(put: T -> seq<byte>, t: T, ts: seq<T>)
    ensures PutMany(put, [t] + ts) == put(t) + PutMany(put, ts)
  {
    assert ([t] + ts)[1..] == ts;
  }

  lemma {:induction false} PutSnoc<T>(put: T -> seq<byte>, ts: seq<T>, t: T)
    ensures PutMany(put, ts + [t]) == PutMany(put, ts) + put(t)
  {
    var all := ts + [t];
    if ts == [] {
      assert all[1..] == [];
    } else {
      assert all[0] == ts[0] && all[1..] == ts[1..] + [t];
      PutSnoc(put, ts[1..], t);
      Assoc(put(ts[0]), PutMany(put, ts[1..]), put(t));
    }
  }

  lemma FitCons<T>(fits: T -> bool, t: T, ts: seq<T>)
    ensures AllFit(fits, [t] + ts) <==> fits(t) && AllFit(fits, ts)
  {
    var all := [t] + ts;
    if AllFit(fits, all) {
      assert fits(all[0]);
      forall k | 0 <= k < |ts| ensures fits(ts[k]) { assert fits(all[k + 1]); }
    }
  }

  lemma {:induction false} TakeManyFinds<T(!new)>(take: seq<byte> -> Option<(T, seq<byte>)>, put: T -> seq<byte>,
                                           fits: T -> bool,
                                                  ts: seq<T>, rest: seq<byte>)
    requires Exact(take, put, fits) && AllFit(fits, ts)
    ensures TakeMany(take, PutMany(put, ts) + rest, |ts|) == Some((ts, rest))
    decreases |ts|
  {
    if ts == [] {
      assert [] + rest == rest;
    } else {
      var t, us := ts[0], ts[1..];
      assert ts == [t] + us;
      FitCons(fits, t, us);
      Assoc(put(t), PutMany(put, us), rest);
      TakeManyFinds(take, put, fits, us, rest);
    }
  }

  lemma {:induction false} TakeManyIsCanonical<T(!new)>(take: seq<byte> -> Option<(T, seq<byte>)>, put: T -> seq<byte>,
                                                 fits: T -> bool,
                                                        s: seq<byte>, n: nat)
    requires Exact(take, put, fits) && TakeMany(take, s, n).Some?
    ensures var (ts, rest) := TakeMany(take, s, n).value;
            |ts| == n && AllFit(fits, ts) && s == PutMany(put, ts) + rest
    decreases n
  {
    if n == 0 {
      assert [] + s == s;
    } else {
      var (t, s1) := take(s).value;
      TakeManyIsCanonical(take, put, fits, s1, n - 1);
      var (ts, rest) := TakeMany(take, s1, n - 1).value;
      PutCons(put, t, ts);
      FitCons(fits, t, ts);
      Assoc(put(t), PutMany(put, ts), rest);
    }
  }

  // Too few elements before one that cannot be read.
  lemma {:induction false} TakeManyStops<T(!new)>(take: seq<byte> -> Option<(T, seq<byte>)>, put: T -> seq<byte>,
                                           fits: T -> bool,
                                                  ts: seq<T>, rest: seq<byte>, n: nat)
    requires Exact(take, put, fits) && AllFit(fits, ts) && |ts| < n && take(rest).None?
    ensures TakeMany(take, PutMany(put, ts) + rest, n).None?
    decreases |ts|
  {
    if ts == [] {
      assert [] + rest == rest;
    } else {
      var t, us := ts[0], ts[1..];
      assert ts == [t] + us;
      FitCons(fits, t, us);
      Assoc(put(t), PutMany(put, us), rest);
      TakeManyStops(take, put, fits, us, rest, n - 1);
    }
  }

  /******* Bodies *******/

  datatype Body =
    | CreateFileReq(chunkSize: nat, filePerm: nat, fileSize: nat, partition: Str, relativePath: Str, fileName: Str)
    | SendFileReq(maxChainLen: nat, compressType: nat, originSize: nat, crc32: nat, offset: nat, fileToken: Str)
    | CloseFileReq(waitClose: nat, fileToken: Str)
    | DeleteFileReq(fileToken: Str)
    | SetChainReq(fileToken: Str, targets: seq<ChainTarget>)
    | CreateFileResp(fileToken: Str)
    | SendFileResp
    | CloseFileResp
    | DeleteFileResp
    | SetChainResp

  function Code(b: Body): nat {
    match b
    case CreateFileReq(_, _, _, _, _, _) => 0x0001
    case SendFileReq(_, _, _, _, _, _) => 0x0002
    case CloseFileReq(_, _) => 0x0003
    case DeleteFileReq(_) => 0x0004
    case SetChainReq(_, _) => 0x0011
    case CreateFileResp(_) => 0x1001
    case SendFileResp => 0x1002
    case CloseFileResp => 0x1003
    case DeleteFileResp => 0x1004
    case SetChainResp => 0x1011
  }

  // create_message knows the command.
  predicate Known(code: nat) {
    code in {0x0001, 0x0002, 0x0003, 0x0004, 0x0011, 0x1001, 0x1002, 0x1003, 0x1004, 0x1011}
  }

  predicate TargetFits(t: ChainTarget) { |t.host| < U32 && t.port < Pow256(2) && |t.fileToken| < U32 }

  // Every field is within its C++ type, and every string and list within its count.
  predicate BodyFits(b: Body) {
    match b
    case CreateFileReq(cs, fp, fs, p, rp, fn) =>
      cs < Pow256(4) && fp < Pow256(4) && fs < Pow256(8) && |p| < U32 && |rp| < U32 && |fn| < U32
    case SendFileReq(m, ct, os, crc, off, t) =>
      m < Pow256(2) && ct < Pow256(2) && os < Pow256(4) && crc < Pow256(4) && off < Pow256(8) && |t| < U32
    case CloseFileReq(w, t) => w < Pow256(1) && |t| < U32
    case DeleteFileReq(t) => |t| < U32
    case SetChainReq(t, ts) => |t| < U32 && |ts| < U32 && AllFit(TargetFits, ts)
    case CreateFileResp(t) => |t| < U32
    case _ => true
  }

  function EncodeTarget(t: ChainTarget): seq<byte> { Text(t.host) + (BE(t.port, 2) + Text(t.fileToken)) }

  function EncodeTargets(ts: seq<ChainTarget>): seq<byte> { PutMany(EncodeTarget, ts) }

  function EncodeBody(b: Body): seq<byte> {
    match b
    case CreateFileReq(cs, fp, fs, p, rp, fn) =>
      BE(cs, 4) + (BE(fp, 4) + (BE(fs, 8) + (Text(p) + (Text(rp) + Text(fn)))))
    case SendFileReq(m, ct, os, crc, off, t) =>
      BE(m, 2) + (BE(ct, 2) + (BE(os, 4) + (BE(crc, 4) + (BE(off, 8) + Text(t)))))
    case CloseFileReq(w, t) => BE(w, 1) + Text(t)
    case DeleteFileReq(t) => Text(t)
    case SetChainReq(t, ts) => Text(t) + (BE(|ts|, 4) + EncodeTargets(ts))
    case CreateFileResp(t) => Text(t)
    case _ => []
  }

  function TakeTarget(s: seq<byte>): Option<(ChainTarget, seq<byte>)> {
    match TakeText(s)
    case None => None
    case Some((host, s1)) =>
      match TakeInt(s1, 2)
      case None => None
      case Some((port, s2)) =>
        match TakeText(s2)
        case None => None
        case Some((token, s3)) => Some((ChainTarget(host, port, token), s3))
  }

  function TakeTargets(s: seq<byte>, n: nat): Option<(seq<ChainTarget>, seq<byte>)> { TakeMany(TakeTarget, s, n) }

  // The body must be used up.
  function AtEnd(b: Body, rest: seq<byte>): Option<Body> { if rest == [] then Some(b) else None }

  function DecodeCreateFileReq(s: seq<byte>): Option<Body> {
    match TakeInt(s, 4) case None => None case Some((cs, s1)) =>
    match TakeInt(s1, 4) case None => None case Some((fp, s2)) =>
    match TakeInt(s2, 8) case None => None case Some((fs, s3)) =>
    match TakeText(s3) case None => None case Some((p, s4)) =>
    match TakeText(s4) case None => None case Some((rp, s5)) =>
    match TakeText(s5) case None => None case Some((fn, s6)) =>
    AtEnd(CreateFileReq(cs, fp, fs, p, rp, fn), s6)
  }

  function DecodeSendFileReq(s: seq<byte>): Option<Body> {
    match TakeInt(s, 2) case None => None case Some((m, s1)) =>
    match TakeInt(s1, 2) case None => None case Some((ct, s2)) =>
    match TakeInt(s2, 4) case None => None case Some((os, s3)) =>
    match TakeInt(s3, 4) case None => None case Some((crc, s4)) =>
    match TakeInt(s4, 8) case None => None case Some((off, s5)) =>
    match TakeText(s5) case None => None case Some((t, s6)) =>
    AtEnd(SendFileReq(m, ct, os, crc, off, t), s6)
  }

  function DecodeCloseFileReq(s: seq<byte>): Option<Body> {
    match TakeInt(s, 1) case None => None case Some((w, s1)) =>
    match TakeText(s1) case None => None case Some((t, s2)) =>
    AtEnd(CloseFileReq(w, t), s2)
  }

  function DecodeSetChainReq(s: seq<byte>): Option<Body> {
    match TakeText(s) case None => None case Some((t, s1)) =>
    match TakeInt(s1, 4) case None => None case Some((n, s2)) =>
    match TakeTargets(s2, n) case None => None case Some((ts, s3)) =>
    AtEnd(SetChainReq(t, ts), s3)
  }

  // decode_body of the message kind with this command, on a fresh message.
  function DecodeBody(code: nat, s: seq<byte>): Option<Body> {
    if code == 0x0001 then DecodeCreateFileReq(s)
    else if code == 0x0002 then DecodeSendFileReq(s)
    else if code == 0x0003 then DecodeCloseFileReq(s)
    else if code == 0x0004 then match TakeText(s) { case None => None case Some((t, r)) => AtEnd(DeleteFileReq(t), r) }
    else if code == 0x0011 then DecodeSetChainReq(s)
    else if code == 0x1001 then match TakeText(s) { case None => None case Some((t, r)) => AtEnd(CreateFileResp(t), r) }
    else if code == 0x1002 then AtEnd(SendFileResp, s)
    else if code == 0x1003 then AtEnd(CloseFileResp, s)
    else if code == 0x1004 then AtEnd(DeleteFileResp, s)
    else if code == 0x1011 then AtEnd(SetChainResp, s)
    else None
  }

  lemma TakeTargetIs(s: seq<byte>, t: ChainTarget, rest: seq<byte>)
    ensures TakeTarget(s) == Some((t, rest)) <==> TargetFits(t) && s == EncodeTarget(t) + rest
  {
    var s2 := Text(t.fileToken) + rest;
    var s1 := BE(t.port, 2) + s2;
    assert EncodeTarget(t) + rest == Text(t.host) + s1;
    TakeTextIs(s, t.host, s1);
    TakeIntIs(s1, 2, t.port, s2);
    TakeTextIs(s2, t.fileToken, rest);
    if TakeTarget(s) == Some((t, rest)) {
      var r1 := TakeText(s).value.1;
      var r2 := TakeInt(r1, 2).value.1;
      TakeTextIs(s, t.host, r1);
      TakeIntIs(r1, 2, t.port, r2);
      TakeTextIs(r2, t.fileToken, rest);
    }
  }

  lemma TargetIsExact()
    ensures Exact(TakeTarget, EncodeTarget, TargetFits)
  {
    forall s | TakeTarget(s).Some?
      ensures TargetFits(TakeTarget(s).value.0) && s == EncodeTarget(TakeTarget(s).value.0) + TakeTarget(s).value.1
    {
      TakeTargetIs(s, TakeTarget(s).value.0, TakeTarget(s).value.1);
    }
    forall t, rest | TargetFits(t) ensures TakeTarget(EncodeTarget(t) + rest) == Some((t, rest)) {
      TakeTargetIs(EncodeTarget(t) + rest, t, rest);
    }
  }

  /******* Bodies are canonical *******/

  lemma TextEnds(t: Str)
    ensures Text(t) + [] == Text(t)
  {
  }

  lemma CreateFileReqFinds(b: Body)
    requires b.CreateFileReq? && BodyFits(b)
    ensures DecodeCreateFileReq(EncodeBody(b)) == Some(b)
  {
    TextEnds(b.fileName);
    var s5 := Text(b.fileName);
    var s4 := Text(b.relativePath) + s5;
    var s3 := Text(b.partition) + s4;
    var s2 := BE(b.fileSize, 8) + s3;
    var s1 := BE(b.filePerm, 4) + s2;
    TakeIntIs(EncodeBody(b), 4, b.chunkSize, s1);
    TakeIntIs(s1, 4, b.filePerm, s2);
    TakeIntIs(s2, 8, b.fileSize, s3);
    TakeTextIs(s3, b.partition, s4);
    TakeTextIs(s4, b.relativePath, s5);
    TakeTextIs(s5, b.fileName, []);
  }

  lemma CreateFileReqIsCanonical(s: seq<byte>)
    requires DecodeCreateFileReq(s).Some?
    ensures var b := DecodeCreateFileReq(s).value; b.CreateFileReq? && BodyFits(b) && EncodeBody(b) == s
  {
    var (cs, s1) := TakeInt(s, 4).value;   TakeIntIs(s, 4, cs, s1);
    var (fp, s2) := TakeInt(s1, 4).value;  TakeIntIs(s1, 4, fp, s2);
    var (fs, s3) := TakeInt(s2, 8).value;  TakeIntIs(s2, 8, fs, s3);
    var (p, s4) := TakeText(s3).value;     TakeTextIs(s3, p, s4);
    var (rp, s5) := TakeText(s4).value;    TakeTextIs(s4, rp, s5);
    var (fn, s6) := TakeText(s5).value;    TakeTextIs(s5, fn, s6);
    TextEnds(fn);
  }

  lemma SendFileReqFinds(b: Body)
    requires b.SendFileReq? && BodyFits(b)
    ensures DecodeSendFileReq(EncodeBody(b)) == Some(b)
  {
    TextEnds(b.fileToken);
    var s5 := Text(b.fileToken);
    var s4 := BE(b.offset, 8) + s5;
    var s3 := BE(b.crc32, 4) + s4;
    var s2 := BE(b.originSize, 4) + s3;
    var s1 := BE(b.compressType, 2) + s2;
    TakeIntIs(EncodeBody(b), 2, b.maxChainLen, s1);
    TakeIntIs(s1, 2, b.compressType, s2);
    TakeIntIs(s2, 4, b.originSize, s3);
    TakeIntIs(s3, 4, b.crc32, s4);
    TakeIntIs(s4, 8, b.offset, s5);
    TakeTextIs(s5, b.fileToken, []);
  }

  lemma SendFileReqIsCanonical(s: seq<byte>)
    requires DecodeSendFileReq(s).Some?
    ensures var b := DecodeSendFileReq(s).value; b.SendFileReq? && BodyFits(b) && EncodeBody(b) == s
  {
    var (m, s1) := TakeInt(s, 2).value;    TakeIntIs(s, 2, m, s1);
    var (ct, s2) := TakeInt(s1, 2).value;  TakeIntIs(s1, 2, ct, s2);
    var (os, s3) := TakeInt(s2, 4).value;  TakeIntIs(s2, 4, os, s3);
    var (crc, s4) := TakeInt(s3, 4).value; TakeIntIs(s3, 4, crc, s4);
    var (off, s5) := TakeInt(s4, 8).value; TakeIntIs(s4, 8, off, s5);
    var (t, s6) := TakeText(s5).value;     TakeTextIs(s5, t, s6);
    TextEnds(t);
  }

  lemma SetChainReqFinds(b: Body)
    requires b.SetChainReq? && BodyFits(b)
    ensures DecodeSetChainReq(EncodeBody(b)) == Some(b)
  {
    Widths();
    var s2 := EncodeTargets(b.targets);
    var s1 := BE(|b.targets|, 4) + s2;
    assert s2 + [] == s2;
    TakeTextIs(EncodeBody(b), b.fileToken, s1);
    TakeIntIs(s1, 4, |b.targets|, s2);
    TargetIsExact();
    TakeManyFinds(TakeTarget, EncodeTarget, TargetFits, b.targets, []);
  }

  lemma SetChainReqIsCanonical(s: seq<byte>)
    requires DecodeSetChainReq(s).Some?
    ensures var b := DecodeSetChainReq(s).value; b.SetChainReq? && BodyFits(b) && EncodeBody(b) == s
  {
    Widths();
    var (t, s1) := TakeText(s).value;    TakeTextIs(s, t, s1);
    var (n, s2) := TakeInt(s1, 4).value; TakeIntIs(s1, 4, n, s2);
    TargetIsExact();
    TakeManyIsCanonical(TakeTarget, EncodeTarget, TargetFits, s2, n);
    var ts := TakeTargets(s2, n).value.0;
    assert EncodeTargets(ts) + [] == EncodeTargets(ts);
  }

  lemma SmallBodyFinds(b: Body)
    requires !b.CreateFileReq? && !b.SendFileReq? && !b.SetChainReq? && BodyFits(b)
    ensures DecodeBody(Code(b), EncodeBody(b)) == Some(b)
  {
    match b
    case CloseFileReq(w, t) =>
      TextEnds(t);
      TakeIntIs(EncodeBody(b), 1, w, Text(t));
      TakeTextIs(Text(t), t, []);
    case DeleteFileReq(t) => TextEnds(t); TakeTextIs(Text(t), t, []);
    case CreateFileResp(t) => TextEnds(t); TakeTextIs(Text(t), t, []);
    case _ =>
  }

  lemma SmallBodyIsCanonical(code: nat, s: seq<byte>)
    requires code !in {0x0001, 0x0002, 0x0011} && DecodeBody(code, s).Some?
    ensures var b := DecodeBody(code, s).value; BodyFits(b) && Code(b) == code && EncodeBody(b) == s
  {
    if code == 0x0003 {
      var (w, s1) := TakeInt(s, 1).value; TakeIntIs(s, 1, w, s1);
      var (t, s2) := TakeText(s1).value;  TakeTextIs(s1, t, s2);
      TextEnds(t);
    } else if code == 0x0004 || code == 0x1001 {
      var (t, r) := TakeText(s).value;    TakeTextIs(s, t, r);
      TextEnds(t);
    }
  }

  // For every kind: the bytes decode to b exactly when they are the encoding of b.
  // So a body is accepted only in its one encoding, and encoding loses nothing.
  lemma BodyIsCanonical(code: nat, s: seq<byte>, b: Body)
    ensures DecodeBody(code, s) == Some(b) <==> BodyFits(b) && Code(b) == code && EncodeBody(b) == s
  {
    if DecodeBody(code, s) == Some(b) {
      if code == 0x0001 { CreateFileReqIsCanonical(s); }
      else if code == 0x0002 { SendFileReqIsCanonical(s); }
      else if code == 0x0011 { SetChainReqIsCanonical(s); }
      else { SmallBodyIsCanonical(code, s); }
    }
    if BodyFits(b) && Code(b) == code && EncodeBody(b) == s {
      if b.CreateFileReq? { CreateFileReqFinds(b); }
      else if b.SendFileReq? { SendFileReqFinds(b); }
      else if b.SetChainReq? { SetChainReqFinds(b); }
      else { SmallBodyFinds(b); }
    }
  }

  /******* Whole messages *******/

  const HEADER_SIZE: nat := 16
  const MAGIC: nat := 0xF1FA
  const VERSION: nat := 1

  datatype Message = Message(error: int, body: Body, data: seq<byte>)

  // The fields of a header, before any check.
  datatype Header = Header(magic: nat, version: nat, command: nat, error: nat, bodyLen: nat, dataLen: nat)

  function EncodeHeader(h: Header): (r: seq<byte>)
    ensures |r| == HEADER_SIZE
  {
    BE(h.magic, 2) + (BE(h.version, 2) + (BE(h.command, 2) + (BE(h.error, 2) + (BE(h.bodyLen, 4) + BE(h.dataLen, 4)))))
  }

  // decode_head, once there are enough bytes for one; the rest is left.
  function TakeHeader(s: seq<byte>): Option<(Header, seq<byte>)> {
    match TakeInt(s, 2) case None => None case Some((magic, s1)) =>
    match TakeInt(s1, 2) case None => None case Some((version, s2)) =>
    match TakeInt(s2, 2) case None => None case Some((command, s3)) =>
    match TakeInt(s3, 2) case None => None case Some((error, s4)) =>
    match TakeInt(s4, 4) case None => None case Some((bodyLen, s5)) =>
    match TakeInt(s5, 4) case None => None case Some((dataLen, s6)) =>
    Some((Header(magic, version, command, error, bodyLen, dataLen), s6))
  }

  predicate HeaderFits(h: Header) {
    && h.magic < Pow256(2) && h.version < Pow256(2) && h.command < Pow256(2) && h.error < Pow256(2)
    && h.bodyLen < Pow256(4) && h.dataLen < Pow256(4)
  }

  lemma SixParts(a: seq<byte>, b: seq<byte>, c: seq<byte>, d: seq<byte>, e: seq<byte>, f: seq<byte>, rest: seq<byte>)
    ensures (a + (b + (c + (d + (e + f))))) + rest == a + (b + (c + (d + (e + (f + rest)))))
  {
    Assoc(a, b + (c + (d + (e + f))), rest);
    Assoc(b, c + (d + (e + f)), rest);
    Assoc(c, d + (e + f), rest);
    Assoc(d, e + f, rest);
    Assoc(e, f, rest);
  }

  lemma HeaderFinds(h: Header, rest: seq<byte>)
    requires HeaderFits(h)
    ensures TakeHeader(EncodeHeader(h) + rest) == Some((h, rest))
  {
    var s5 := BE(h.dataLen, 4) + rest;
    var s4 := BE(h.bodyLen, 4) + s5;
    var s3 := BE(h.error, 2) + s4;
    var s2 := BE(h.command, 2) + s3;
    var s1 := BE(h.version, 2) + s2;
    SixParts(BE(h.magic, 2), BE(h.version, 2), BE(h.command, 2), BE(h.error, 2), BE(h.bodyLen, 4), BE(h.dataLen, 4),
             rest);
    TakeIntIs(EncodeHeader(h) + rest, 2, h.magic, s1);
    TakeIntIs(s1, 2, h.version, s2);
    TakeIntIs(s2, 2, h.command, s3);
    TakeIntIs(s3, 2, h.error, s4);
    TakeIntIs(s4, 4, h.bodyLen, s5);
    TakeIntIs(s5, 4, h.dataLen, rest);
  }

  lemma HeaderIsCanonical(s: seq<byte>)
    requires |s| >= HEADER_SIZE
    ensures TakeHeader(s).Some?
    ensures var (h, rest) := TakeHeader(s).value; HeaderFits(h) && s == EncodeHeader(h) + rest
  {
    var (magic, s1) := TakeInt(s, 2).value;    TakeIntIs(s, 2, magic, s1);
    var (version, s2) := TakeInt(s1, 2).value; TakeIntIs(s1, 2, version, s2);
    var (command, s3) := TakeInt(s2, 2).value; TakeIntIs(s2, 2, command, s3);
    var (error, s4) := TakeInt(s3, 2).value;   TakeIntIs(s3, 2, error, s4);
    var (bodyLen, s5) := TakeInt(s4, 4).value; TakeIntIs(s4, 4, bodyLen, s5);
    var (dataLen, s6) := TakeInt(s5, 4).value; TakeIntIs(s5, 4, dataLen, s6);
    SixParts(BE(magic, 2), BE(version, 2), BE(command, 2), BE(error, 2), BE(bodyLen, 4), BE(dataLen, 4), s6);
  }

  lemma NoHeaderYet(s: seq<byte>)
    requires |s| < HEADER_SIZE
    ensures TakeHeader(s).None?
  {
  }

  // What goes on the wire after the header: only SendFileReq sends its data.
  function Payload(m: Message): seq<byte> {
    if m.body.SendFileReq? then EncodeBody(m.body) + m.data else EncodeBody(m.body)
  }

  // FcopyMessage::encode; body_len is what is left of the payload without the data.
  function HeaderOf(m: Message): Header {
    Header(MAGIC, VERSION, Code(m.body), U16(m.error), (|Payload(m)| - |m.data|) % U32, |m.data| % U32)
  }

  function Encode(m: Message): seq<byte> { EncodeHeader(HeaderOf(m)) + Payload(m) }

  predicate Fits(m: Message) {
    && -0x8000 <= m.error < 0x8000 && BodyFits(m.body)
    && |EncodeBody(m.body)| < U32 && |m.data| < U32
  }

  datatype Outcome = More | Bad(errno: int) | Done(msg: Message, used: nat)

  // The size check adds two 32-bit lengths before it widens them.
  predicate TooLarge(limit: nat, h: Header) { (h.bodyLen + h.dataLen) % U32 + HEADER_SIZE > limit }

  predicate HeaderOk(h: Header) { h.magic == MAGIC && h.version == VERSION && Known(h.command) }

  // What a fresh message makes of the whole stream s.
  function Parse(limit: nat, s: seq<byte>): Outcome {
    match TakeHeader(s)
    case None => More
    case Some((h, p)) =>
      if !HeaderOk(h) then Bad(EBADMSG)
      else if TooLarge(limit, h) then Bad(EMSGSIZE)
      else ParsePayload(h, p)
  }

  function ParsePayload(h: Header, p: seq<byte>): Outcome {
    if |p| < h.bodyLen + h.dataLen then More
    else
      match DecodeBody(h.command, p[..h.bodyLen])
      case None => Bad(EBADMSG)
      case Some(b) =>
        Done(Message(Int16(h.error), b, p[h.bodyLen..h.bodyLen + h.dataLen]), HEADER_SIZE + h.bodyLen + h.dataLen)
  }

  // Where the fields of the header are, and its first bytes.
  lemma HeaderLayout(h: Header)
    ensures var e := EncodeHeader(h);
            && e[..2] == BE(h.magic, 2) && e[2..4] == BE(h.version, 2) && e[4..6] == BE(h.command, 2)
            && e[6..8] == BE(h.error, 2) && e[8..12] == BE(h.bodyLen, 4) && e[12..16] == BE(h.dataLen, 4)
    ensures BE(MAGIC, 2) == [0xF1, 0xFA] && BE(VERSION, 2) == [0, 1]
  {
    assert BE(MAGIC, 2) == [0xF1, 0xFA] && BE(VERSION, 2) == [0, 1] by {
      BEAt(MAGIC, 2, 0);
      BEAt(MAGIC, 2, 1);
      BEAt(VERSION, 2, 0);
      BEAt(VERSION, 2, 1);
    }
  }

  // Where those of the bodies are. A string is its length in four bytes, and itself.
  lemma CreateFileReqLayout(b: Body)
    requires b.CreateFileReq?
    ensures var e := EncodeBody(b);
            && |e| >= 16
            && e[..4] == BE(b.chunkSize, 4) && e[4..8] == BE(b.filePerm, 4) && e[8..16] == BE(b.fileSize, 8)
            && e[16..] == Text(b.partition) + Text(b.relativePath) + Text(b.fileName)
  {
    Assoc(Text(b.partition), Text(b.relativePath), Text(b.fileName));
  }

  lemma SendFileReqLayout(b: Body)
    requires b.SendFileReq?
    ensures var e := EncodeBody(b);
            && |e| >= 20 && e[..2] == BE(b.maxChainLen, 2) && e[2..4] == BE(b.compressType, 2)
            && e[4..8] == BE(b.originSize, 4) && e[8..12] == BE(b.crc32, 4) && e[12..20] == BE(b.offset, 8)
            && e[20..] == Text(b.fileToken)
  {
  }

  lemma CloseFileReqLayout(b: Body)
    requires b.CloseFileReq?
    ensures var e := EncodeBody(b); |e| >= 1 && e[..1] == BE(b.waitClose, 1) && e[1..] == Text(b.fileToken)
  {
  }

  lemma SetChainReqLayout(b: Body)
    requires b.SetChainReq?
    ensures var e, n := EncodeBody(b), |b.fileToken|;
            && |e| >= n + 8 && e[..n + 4] == Text(b.fileToken) && e[n + 4..n + 8] == BE(|b.targets|, 4)
            && e[n + 8..] == EncodeTargets(b.targets)
  {
  }

  lemma {:induction false} TargetsLayout(ts: seq<ChainTarget>, k: nat)
    requires k < |ts|
    ensures EncodeTargets(ts[..k]) + (Text(ts[k].host) + (BE(ts[k].port, 2) + Text(ts[k].fileToken))) <=
            EncodeTargets(ts)
    decreases k
  {
    if k > 0 {
      TargetsLayout(ts[1..], k - 1);
      assert ts[..k][1..] == ts[1..][..k - 1];
    }
  }

  // The code of each kind, as it is on the wire.
  lemma Codes(b: Body)
    ensures Known(Code(b))
    ensures var first := if b.SetChainReq? || b.SetChainResp? then 0x11
                         else if b.CreateFileReq? || b.CreateFileResp? then 1
                         else if b.SendFileReq? || b.SendFileResp? then 2
                         else if b.CloseFileReq? || b.CloseFileResp? then 3 else 4;
            Code(b) == first + if b.CreateFileResp? || b.SendFileResp? || b.CloseFileResp? || b.DeleteFileResp? ||
                                  b.SetChainResp? then 0x1000 else 0
  {
  }

  lemma PrefixKept(p: seq<byte>, t: seq<byte>, a: nat, b: nat)
    requires a <= b <= |p|
    ensures (p + t)[..a] == p[..a] && (p + t)[a..b] == p[a..b]
  {
  }

  lemma PayloadVerdictStays(h: Header, p: seq<byte>, t: seq<byte>)
    requires !ParsePayload(h, p).More?
    ensures ParsePayload(h, p + t) == ParsePayload(h, p)
  {
    PrefixKept(p, t, h.bodyLen, h.bodyLen + h.dataLen);
  }

  lemma HeaderStays(s: seq<byte>, t: seq<byte>)
    requires TakeHeader(s).Some?
    ensures var (h, p) := TakeHeader(s).value; TakeHeader(s + t) == Some((h, p + t))
  {
    if |s| < HEADER_SIZE { NoHeaderYet(s); }
    var (h, p) := TakeHeader(s).value;
    HeaderIsCanonical(s);
    Assoc(EncodeHeader(h), p, t);
    HeaderFinds(h, p + t);
  }

  // More bytes never change a verdict: what follows a message is not looked at.
  lemma VerdictStays(limit: nat, s: seq<byte>, t: seq<byte>)
    requires !Parse(limit, s).More?
    ensures Parse(limit, s + t) == Parse(limit, s)
  {
    HeaderStays(s, t);
    var (h, p) := TakeHeader(s).value;
    if HeaderOk(h) && !TooLarge(limit, h) { PayloadVerdictStays(h, p, t); }
  }

  // What a reader that calls append on each fragment, up to the first nonzero
  // code, ends with; acc is what it has been given before.
  function Feed(limit: nat, acc: seq<byte>, fragments: seq<seq<byte>>): Outcome
    decreases |fragments|
  {
    if fragments == [] then Parse(limit, acc)
    else
      var r := Parse(limit, acc + fragments[0]);
      if r.More? then Feed(limit, acc + fragments[0], fragments[1..]) else r
  }

  function Flatten(fragments: seq<seq<byte>>): seq<byte> {
    if fragments == [] then [] else fragments[0] + Flatten(fragments[1..])
  }

  // However a stream is cut into fragments, the outcome is that of the whole.
  lemma {:induction false} FragmentationDoesNotMatter(limit: nat, acc: seq<byte>, fragments: seq<seq<byte>>)
    ensures Feed(limit, acc, fragments) == Parse(limit, acc + Flatten(fragments))
    decreases |fragments|
  {
    if fragments == [] {
      assert acc + [] == acc;
    } else {
      var next := acc + fragments[0];
      assert acc + Flatten(fragments) == next + Flatten(fragments[1..]);
      if Parse(limit, next).More? {
        FragmentationDoesNotMatter(limit, next, fragments[1..]);
      } else {
        VerdictStays(limit, next, Flatten(fragments[1..]));
      }
    }
  }

  // What the header of m promises is what follows it.
  lemma HeaderOfIs(m: Message)
    requires Fits(m) && (m.data == [] || m.body.SendFileReq?)
    ensures var h := HeaderOf(m);
            && HeaderFits(h) && HeaderOk(h) && Int16(h.error) == m.error
            && h.bodyLen == |EncodeBody(m.body)| && h.dataLen == |m.data|
            && Payload(m) == EncodeBody(m.body) + m.data
  {
    Widths();
  }

  lemma Slices(b: seq<byte>, d: seq<byte>, rest: seq<byte>)
    ensures (b + d + rest)[..|b|] == b && (b + d + rest)[|b|..|b| + |d|] == d
  {
  }

  lemma PayloadParses(m: Message, rest: seq<byte>)
    requires Fits(m) && (m.data == [] || m.body.SendFileReq?)
    ensures ParsePayload(HeaderOf(m), Payload(m) + rest) == Done(m, HEADER_SIZE + |EncodeBody(m.body)| + |m.data|)
  {
    HeaderOfIs(m);
    Slices(EncodeBody(m.body), m.data, rest);
    BodyIsCanonical(Code(m.body), EncodeBody(m.body), m.body);
  }

  lemma Admitted(limit: nat, m: Message)
    requires Fits(m) && (m.data == [] || m.body.SendFileReq?)
    requires |Encode(m)| <= limit && |EncodeBody(m.body)| + |m.data| < U32
    ensures !TooLarge(limit, HeaderOf(m)) && |Encode(m)| == HEADER_SIZE + |EncodeBody(m.body)| + |m.data|
  {
    HeaderOfIs(m);
  }

  lemma WholeParses(limit: nat, m: Message, rest: seq<byte>)
    requires Fits(m) && (m.data == [] || m.body.SendFileReq?)
    requires |Encode(m)| <= limit && |EncodeBody(m.body)| + |m.data| < U32
    ensures Parse(limit, Encode(m) + rest) == Done(m, |Encode(m)|)
  {
    HeaderOfIs(m);
    Admitted(limit, m);
    Assoc(EncodeHeader(HeaderOf(m)), Payload(m), rest);
    HeaderFinds(HeaderOf(m), Payload(m) + rest);
    PayloadParses(m, rest);
  }

  lemma PartParses(limit: nat, m: Message, cut: nat)
    requires Fits(m) && (m.data == [] || m.body.SendFileReq?)
    requires |Encode(m)| <= limit && |EncodeBody(m.body)| + |m.data| < U32 && cut < |Encode(m)|
    ensures Parse(limit, Encode(m)[..cut]) == More
  {
    if cut < HEADER_SIZE {
      NoHeaderYet(Encode(m)[..cut]);
    } else {
      HeaderOfIs(m);
      Admitted(limit, m);
      var q := Payload(m)[..cut - HEADER_SIZE];
      assert Encode(m)[..cut] == EncodeHeader(HeaderOf(m)) + q;
      HeaderFinds(HeaderOf(m), q);
    }
  }

  // A message within the limit, with data only where data is sent, comes back as it
  // went, and not before its last byte.
  lemma RoundTrip(limit: nat, m: Message, rest: seq<byte>, cut: nat)
    requires Fits(m) && (m.data == [] || m.body.SendFileReq?)
    requires |Encode(m)| <= limit && |EncodeBody(m.body)| + |m.data| < U32
    requires cut < |Encode(m)|
    ensures Parse(limit, Encode(m) + rest) == Done(m, |Encode(m)|)
    ensures Parse(limit, Encode(m)[..cut]) == More
  {
    WholeParses(limit, m, rest);
    PartParses(limit, m, cut);
  }

  // The same through append: the sender's bytes, followed by anything, cut anywhere.
  lemma RoundTripInFragments(limit: nat, m: Message, fragments: seq<seq<byte>>, rest: seq<byte>)
    requires Fits(m) && (m.data == [] || m.body.SendFileReq?)
    requires |Encode(m)| <= limit && |EncodeBody(m.body)| + |m.data| < U32
    ensures Flatten(fragments) == Encode(m) + rest ==> Feed(limit, [], fragments) == Done(m, |Encode(m)|)
    ensures Flatten(fragments) < Encode(m) ==> Feed(limit, [], fragments) == More
  {
    FedAsOne(limit, fragments);
    WholeParses(limit, m, rest);
    if Flatten(fragments) < Encode(m) { PrefixParses(limit, m, Flatten(fragments)); }
  }

  lemma PrefixParses(limit: nat, m: Message, s: seq<byte>)
    requires Fits(m) && (m.data == [] || m.body.SendFileReq?) && s < Encode(m)
    requires |Encode(m)| <= limit && |EncodeBody(m.body)| + |m.data| < U32
    ensures Parse(limit, s) == More
  {
    var e := Encode(m);
    assert s == e[..|s|];
    PartParses(limit, m, |s|);
  }

  lemma FedAsOne(limit: nat, fragments: seq<seq<byte>>)
    ensures Feed(limit, [], fragments) == Parse(limit, Flatten(fragments))
  {
    FragmentationDoesNotMatter(limit, [], fragments);
    assert [] + Flatten(fragments) == Flatten(fragments);
  }

  // Conversely an accepted message has only one encoding: encoding it again gives
  // the accepted bytes, unless it is of a kind that takes data but does not send it.
  lemma AcceptedIsCanonical(limit: nat, s: seq<byte>)
    requires Parse(limit, s).Done?
    ensures var (m, used) := (Parse(limit, s).msg, Parse(limit, s).used);
            && Fits(m) && used <= |s|
            && (Encode(m) == s[..used] <==> m.data == [] || m.body.SendFileReq?)
  {
    if |s| < HEADER_SIZE { NoHeaderYet(s); }
    HeaderIsCanonical(s);
    var (h, p) := TakeHeader(s).value;
    var (m, used) := (Parse(limit, s).msg, Parse(limit, s).used);
    AcceptedPayload(h, p, m);
    var n := h.bodyLen + h.dataLen;
    assert s[..used] == EncodeHeader(h) + p[..n];
    if m.data == [] || m.body.SendFileReq? {
      HeaderOfIs(m);
      assert HeaderOf(m) == h;
    } else {
      assert |Encode(m)| == HEADER_SIZE + h.bodyLen;
    }
  }

  // What is rejected, and why: a header that is not one of ours, one that announces too
  // much, and a body that is the encoding of nothing.
  lemma RejectedIs(limit: nat, s: seq<byte>)
    requires |s| >= HEADER_SIZE && TakeHeader(s).Some?
    ensures var (h, p) := TakeHeader(s).value;
            Parse(limit, s) ==
            if !HeaderOk(h) then Bad(EBADMSG) else if TooLarge(limit, h) then Bad(EMSGSIZE) else ParsePayload(h, p)
    ensures var (h, p) := TakeHeader(s).value;
            HeaderOk(h) ==>
              (ParsePayload(h, p).Bad? <==> |p| >= h.bodyLen + h.dataLen && NoBody(h.command, p[..h.bodyLen])) &&
              (ParsePayload(h, p).Bad? ==> ParsePayload(h, p).errno == EBADMSG)
  {
    var (h, p) := TakeHeader(s).value;
    if HeaderOk(h) && |p| >= h.bodyLen + h.dataLen {
      forall b { BodyIsCanonical(h.command, p[..h.bodyLen], b); }
    }
  }

  ghost predicate NoBody(code: nat, s: seq<byte>) {
    forall b :: BodyFits(b) && Code(b) == code ==> EncodeBody(b) != s
  }

  // A reply without data that comes with a byte of it is accepted, and encodes without.
  lemma DataCanBeLost()
    ensures var s := EncodeHeader(Header(MAGIC, VERSION, Code(SendFileResp), 0, 0, 1)) + [7];
            var m := Message(0, SendFileResp, [7]);
            Parse(0x800_0000, s) == Done(m, |s|) && |Encode(m)| < |s|
  {
    var h, data: seq<byte> := Header(MAGIC, VERSION, Code(SendFileResp), 0, 0, 1), [7];
    Widths();
    HeaderFinds(h, data);
    assert data[..0] == [] && data[0..1] == data;
  }

  lemma Split(p: seq<byte>, a: nat, b: nat)
    requires a <= b <= |p|
    ensures |p[a..b]| == b - a && p[..b] == p[..a] + p[a..b]
  {
  }

  lemma ErrorBack(u: nat)
    requires u < 0x1_0000
    ensures U16(Int16(u)) == u && -0x8000 <= Int16(u) < 0x8000
  {
  }

  lemma Delivered(h: Header, p: seq<byte>)
    requires ParsePayload(h, p).Done?
    ensures |p| >= h.bodyLen + h.dataLen
    ensures var m := ParsePayload(h, p).msg;
            && DecodeBody(h.command, p[..h.bodyLen]) == Some(m.body)
            && m.data == p[h.bodyLen..h.bodyLen + h.dataLen] && m.error == Int16(h.error)
  {
  }

  lemma AcceptedPayload(h: Header, p: seq<byte>, m: Message)
    requires HeaderFits(h) && ParsePayload(h, p).Done? && m == ParsePayload(h, p).msg
    ensures Fits(m) && Code(m.body) == h.command && U16(m.error) == h.error
    ensures |EncodeBody(m.body)| == h.bodyLen && |m.data| == h.dataLen
    ensures p[..h.bodyLen + h.dataLen] == EncodeBody(m.body) + m.data
  {
    var x, d := p[..h.bodyLen], p[h.bodyLen..h.bodyLen + h.dataLen];
    Delivered(h, p);
    assert p[..h.bodyLen + h.dataLen] == x + d by { Split(p, h.bodyLen, h.bodyLen + h.dataLen); }
    assert BodyFits(m.body) && Code(m.body) == h.command && EncodeBody(m.body) == x by {
      BodyIsCanonical(h.command, x, m.body);
    }
    ErrorBack(h.error);
    Widths();
  }

  // The limit is kept exactly when the two lengths do not wrap around, or the
  // wrapped sum is over the limit by itself.
  lemma LimitIsExactIff(limit: nat, h: Header)
    requires h.bodyLen < U32 && h.dataLen < U32
    ensures (TooLarge(limit, h) <==> h.bodyLen + h.dataLen + HEADER_SIZE > limit) <==>
            h.bodyLen + h.dataLen < U32 || h.bodyLen + h.dataLen - U32 + HEADER_SIZE > limit ||
            h.bodyLen + h.dataLen + HEADER_SIZE <= limit
  {
  }

  // Sixteen bytes announcing 4 GiB pass a limit of 128 MiB.
  lemma LimitCanBeMissed()
    ensures var h := Header(MAGIC, VERSION, 0x0002, 0, U32 - 1, 1);
            HeaderFits(h) && Parse(0x800_0000, EncodeHeader(h)) == More
                && h.bodyLen + h.dataLen + HEADER_SIZE > 0x800_0000
  {
    var h := Header(MAGIC, VERSION, 0x0002, 0, U32 - 1, 1);
    Widths();
    HeaderFinds(h, []);
    assert EncodeHeader(h) + [] == EncodeHeader(h);
  }
}
