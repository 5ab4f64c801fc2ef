/** Types shared by every component of the model. */
module Basics {
  /** A row identifier. Identifiers are only ever compared. */
  type Id = int

  /** An instant, or a duration, in the database's or the process's time unit. */
  type Time = int

  datatype Option<+T> = None | Some(value: T)

  datatype Result<+T, +E> = Ok(value: T) | Err(error: E)

  function Min(a: int, b: int): int {
    if a <= b then a else b
  }

  lemma MinMeaning(a: int, b: int)
    ensures Min(a, b) <= a && Min(a, b) <= b && (Min(a, b) == a || Min(a, b) == b)
  {
  }

  lemma AnyOf<T>(s: set<T>) returns (x: T)
    requires s != {}
    ensures x in s
  {
    x :| x in s;
  }

  method TakeAny<T(==)>(s: set<T>) returns (x: T)
    requires s != {}
    ensures x in s
  {
    x :| x in s;
  }

  /** A finite set of the right size is what an injection from it into another set bounds. */
  lemma {:induction false} InjectionBound<A, B>(s: set<A>, f: map<A, B>, target: set<B>)
    requires s <= f.Keys
    requires forall a | a in s :: f[a] in target
    requires forall a, b | a in s && b in s && f[a] == f[b] :: a == b
    ensures |s| <= |target|
  {
    if s != {} {
      var a :| a in s;
      InjectionBound(s - {a}, f, target - {f[a]});
    }
  }
}
