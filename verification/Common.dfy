/** Small result types shared by the modules of the project. */
module Common {

  datatype Option<+T> = None | Some(value: T)

  /** A value, or the text of the error the operation returned instead. */
  datatype Result<+T> = Ok(value: T) | Err(message: string)

  lemma Regroup<T>(x: seq<T>, y: seq<T>, z: seq<T>)
    ensures x + y + z == x + (y + z)
  {
  }

  /** A prefix of a prefix. */
  lemma CutTwice<T>(s: seq<T>, n: nat, k: nat)
    requires k <= n <= |s|
    ensures s[..n][..k] == s[..k] && s[..|s|] == s
  {
  }

  lemma AllButLast<T>(s: seq<T>)
    requires |s| > 0
    ensures s == s[..|s| - 1] + [s[|s| - 1]]
  {
  }
}
