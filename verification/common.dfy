/**
 Shared vocabulary: an Option type standing in for JavaScript's `null` /
 `undefined`, bytes, and the small map helpers that mirror `Map.get(k) || d`.
 */
module Common {

  /** `None` plays the role of a missing / `null` / `undefined` JavaScript value. */
  datatype Option<+T> = None | Some(value: T) {
    function GetOr(default: T): T {
      match this
      case Some(v) => v
      case None => default
    }
  }

  /** Server-issued connection identifier (`crypto.randomUUID()`), opaque here. */
  type ConnId = string

  /** One element of a `Uint8Array`. */
  type Byte = x: int | 0 <= x < 256

  /** `m.get(k) || d` for a map whose stored values are never falsy. */
  function GetOr<K, V>(m: map<K, V>, k: K, d: V): V {
    if k in m then m[k] else d
  }

  /** `Math.abs` on integers. */
  function Abs(x: int): nat {
    if x < 0 then -x else x
  }

  /** `Math.min` on integers. */
  function Min(a: int, b: int): int {
    if a <= b then a else b
  }

  /** Integer power of two, `Math.pow(2, k)` for a natural `k`. */
  function Pow2(k: nat): nat {
    if k == 0 then 1 else 2 * Pow2(k - 1)
  }
}
