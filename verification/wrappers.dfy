/** Optional values and results with an error, as the engine's Rust `Option` and `Result`. */
module Wrappers {

  datatype Option<+T> = None | Some(value: T)

  datatype Result<+T, +E> = Ok(value: T) | Err(error: E)

  /** A raw input cell after decoding: absent, present but not parseable, or a typed value. */
  datatype Field<+T> = Missing | Malformed | Present(value: T)
}

/** Helpers for walking the keys of a map in no particular order, as a HashMap iteration does. */
module Sets {

  /** Some member of a non-empty set; a ghost witness that lets a method choose a key with `:|`. */
  lemma Member<T>(s: set<T>) returns (x: T)
    requires s != {}
    ensures x in s
  {
    x :| x in s;
  }
}

/** Products of naturals, for index arithmetic over equal-sized blocks. */
module Arith {

  lemma {:induction false} MulMonotone(a: nat, b: nat, w: nat)
    requires a <= b
    ensures a * w <= b * w
    decreases b - a
  {
    if a < b {
      MulMonotone(a + 1, b, w);
      assert (a + 1) * w == a * w + w;
    }
  }
}
