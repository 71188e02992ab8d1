/** Small value wrappers shared by every module of the model. */
module Common {

  /** A value that may be missing (`undefined` or `null` in the source when the two behave alike). */
  datatype Option<+T> = None | Some(value: T) {
    function GetOr(default: T): T {
      match this
      case Some(v) => v
      case None => default
    }
  }

  /** An optional field where the source tells `undefined` (absent) and `null` apart. */
  datatype Maybe<+T> = Undefined | Null | Defined(value: T) {
    /** `value ?? null`: undefined and null both become a missing value. */
    function OrNull(): Option<T> {
      match this
      case Defined(v) => Some(v)
      case _ => None
    }
  }

  /** Concatenation regroups freely. */
  lemma AppendAssoc<T>(a: seq<T>, b: seq<T>, c: seq<T>)
    ensures a + b + c == a + (b + c)
  {
  }

  /** A position at which an element of a sequence occurs. */
  lemma IndexOf<T>(xs: seq<T>, x: T) returns (i: nat)
    requires x in xs
    ensures i < |xs| && xs[i] == x
  {
    i :| 0 <= i < |xs| && xs[i] == x;
  }
}
