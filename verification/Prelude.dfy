// Small value types, arithmetic and facts on sequences shared by the modules of this project.
module Prelude {

  datatype Option<+T> = None | Some(value: T)

  /** The exceptions of the program appear as `Failure` values. */
  datatype Result<+T, +E> = Success(value: T) | Failure(error: E)

  function Max(a: int, b: int): int {
    if a < b then b else a
  }

  function Min(a: int, b: int): int {
    if a < b then a else b
  }

  function Stretch(n: nat, gap: real): real {
    n as real * gap
  }

  lemma StretchOne(n: nat, gap: real)
    ensures Stretch(n + 1, gap) == Stretch(n, gap) + gap && Stretch(0, gap) == 0.0
  {
  }

  // ---------- sequences ----------

  lemma InitAndLast<T>(s: seq<T>, n: nat)
    requires |s| == n + 1
    ensures s[..n] + [s[n]] == s
  {
  }

  lemma WithOneMore<T>(s: seq<T>, x: T)
    ensures var r := s + [x]; |r| == |s| + 1 && r[..|s|] == s && r[|s|] == x
  {
  }

  lemma Singleton<T>(s: seq<T>)
    requires |s| == 1
    ensures s == [s[0]] && [] + [s[0]] == s && s[..0] == []
  {
  }

  lemma HeadAndTail<T>(s: seq<T>)
    requires s != []
    ensures [s[0]] + s[1..] == s
  {
  }

  lemma Associates<T>(a: seq<T>, b: seq<T>, c: seq<T>)
    ensures (a + b) + c == a + (b + c)
  {
  }

  lemma TailConcat<T>(h: T, p: seq<T>, q: seq<T>)
    requires p != []
    ensures (p + q)[0] == p[0] && [h] + (p + q)[1..] == ([h] + p[1..]) + q
  {
  }
}
