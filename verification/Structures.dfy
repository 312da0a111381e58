// Shared value types: src/common/structures.h, and the integer conversions
// that the message header imposes on every error code.

module Structures {

  function Min(a: nat, b: nat): nat { if a <= b then a else b }

  datatype Option<+T> = None | Some(value: T)

  type byte = b: int | 0 <= b < 256

  // std::string holds bytes, not characters.
  type Str = seq<byte>

  datatype Addr = Addr(host: Str, port: nat)

  // One link of the forwarding tree: where the child listens, and the token it
  // handed out for the file.
  datatype ChainTarget = ChainTarget(host: Str, port: nat, fileToken: Str) {
    function At(): Addr { Addr(host, port) }
  }

  const ENOENT := 2
  const EEXIST := 17
  const ENOTDIR := 20
  const EINVAL := 22
  const EBADMSG := 74
  const EMSGSIZE := 90
  const ECANCELED := 125
  const ERR_NO_FILE := 1027

  // static_cast<uint16_t>(x)
  function U16(x: int): nat { x % 0x1_0000 }

  // An int passed through the int16_t `error` field of a message.
  function Int16(x: int): (r: int)
    ensures -0x8000 <= r < 0x8000
  {
    var u := x % 0x1_0000;
    if u < 0x8000 then u else u - 0x1_0000
  }

  lemma Int16Idempotent(x: int)
    ensures Int16(Int16(x)) == Int16(x)
  {
    var u := x % 0x1_0000;
    if u < 0x8000 {
    } else {
      assert (u - 0x1_0000) % 0x1_0000 == u;
    }
  }

  // Conversion is exact on what fits, and can erase an error that does not fit.
  lemma Int16Exact(x: int)
    ensures Int16(x) == x <==> -0x8000 <= x < 0x8000
    ensures (Int16(x) - x) % 0x1_0000 == 0 && Int16(0x1_0000) == 0
    ensures (U16(x) - x) % 0x1_0000 == 0 && U16(x) < 0x1_0000
  {
  }
}
