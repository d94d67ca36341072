/** Machine integers, Option/Result and the error taxonomy shared by every module. */
module Common {

  newtype byte = x: int | 0 <= x < 0x100
  newtype u16 = x: int | 0 <= x < 0x1_0000
  newtype u32 = x: int | 0 <= x < 0x1_0000_0000
  newtype u64 = x: int | 0 <= x < 0x1_0000_0000_0000_0000

  datatype Option<T> = None | Some(value: T)

  /** The kinds of failure the store reports. */
  datatype Error =
    | NotFound      // a record that is not in the store
    | Corrupt       // a stored blob that does not decode
    | StorageIO     // a read or a write of the record store failed
    | IndexIO       // adding to or committing the search index failed
    | InvalidQuery  // the query text does not parse
    | LinkConflict  // a symlink would be created over an existing path
    | RenderFailed  // writing the PDF failed
    | Network       // a remote fetch failed

  datatype Result<T> = Ok(value: T) | Err(error: Error)

  /** Index of the first `c` in `s`, or |s| when there is none. */
  function FirstIndexOf(s: string, c: char): (k: nat)
    ensures k <= |s|
    ensures forall j :: 0 <= j < k ==> s[j] != c
    ensures k < |s| ==> s[k] == c
  {
    if s == [] || s[0] == c then 0 else 1 + FirstIndexOf(s[1..], c)
  }

  /** `x as u64` on a u32: zero extension. */
  function Widen(x: u32): (r: u64)
    ensures r as int == x as int
  {
    x as int as u64
  }

  /** `x as u32` on a u64: keeps the low 32 bits. */
  function Truncate(x: u64): (r: u32)
    ensures r as int == x as int % 0x1_0000_0000
    ensures x as int < 0x1_0000_0000 ==> r as int == x as int
  {
    (x as int % 0x1_0000_0000) as u32
  }

  /** Widening then truncating gives back the original id. */
  lemma TruncateWiden(x: u32)
    ensures Truncate(Widen(x)) == x
  {
  }
}
