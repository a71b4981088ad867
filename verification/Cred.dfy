/** A credential (src/api/auks/auks_cred.h) as it lies in memory: the two character arrays are kept
    whole, whatever follows the terminating NUL or the used length included. */
module Creds {

  type byte = x: int | 0 <= x < 256

  type Uid = x: int | 0 <= x < 0x1_0000_0000

  datatype Cred = Cred(
    principal: seq<byte>,
    uid: Uid,
    starttime: int, endtime: int, renewTill: int,
    addressless: int, crossrealm: int,
    data: seq<byte>, length: nat, maxLength: nat,
    status: int)

  const PRINCIPAL_MAX := 128
  const DATA_MAX := 32768

  function Zeros(n: nat): (s: seq<byte>)
    ensures |s| == n && forall i :: 0 <= i < n ==> s[i] == 0
  {
    seq(n, _ => 0)
  }

  /** What zeroed credential memory reads as. */
  const ZERO_CRED := Cred(Zeros(PRINCIPAL_MAX + 1), 0, 0, 0, 0, 0, 0, Zeros(DATA_MAX), 0, 0, 0)

  /** `auks_cred_free_contents` */
  function Freed(c: Cred): Cred {
    Cred(Zeros(PRINCIPAL_MAX + 1), 0xFFFF_FFFF, 0, 0, 0, 1, 0, Zeros(DATA_MAX), 0, c.maxLength, 0)
  }
}
