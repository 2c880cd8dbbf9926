/** Shared value wrappers. */
module Common {

  /** A value that may be absent: the model's stand-in for a .NET reference that may be null. */
  datatype Option<T> = None | Some(value: T)

  /** A prefix one longer is the prefix followed by the next element. */
  lemma TakeSnoc<T>(s: seq<T>, i: int)
    requires 0 <= i < |s|
    ensures s[..i + 1] == s[..i] + [s[i]]
  {
  }

  /** The prefix of a sequence as long as the sequence is the sequence itself. */
  lemma TakeAll<T>(s: seq<T>)
    ensures s[..|s|] == s
  {
  }
}
