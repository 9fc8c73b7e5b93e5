/**
 What several components share: bytes, 64-bit words, optional values and two facts about counting.
 */
module Common {

  newtype byte = x | 0 <= x < 256

  /** One more than the largest 64-bit word. */
  const U64 := 0x1_0000_0000_0000_0000

  datatype Option<+T> = None | Some(value: T)

  function Min(a: nat, b: nat): nat {
    if a < b then a else b
  }

  function Max(a: nat, b: nat): nat {
    if a > b then a else b
  }

  /** Sets that differ in one element at most. */
  lemma SizeBut<T>(a: set<T>, b: set<T>, x: T)
    requires a - {x} == b - {x}
    ensures |b| == |a| - (if x in a then 1 else 0) + (if x in b then 1 else 0)
  {
    var c := a - {x};
    assert a == if x in a then c + {x} else c;
    assert b == if x in b then c + {x} else c;
  }

  lemma SubsetSize<T>(a: set<T>, b: set<T>)
    requires a <= b
    ensures |a| <= |b|
  {
    assert b == a + (b - a);
  }

  /** Block a ends before block b begins. */
  lemma {:induction false} Multiples(a: nat, b: nat, size: nat)
    requires a < b
    ensures a * size + size <= b * size
  {
    assert b * size == (b - 1) * size + size;
    if a < b - 1 {
      Multiples(a, b - 1, size);
    }
  }
}
