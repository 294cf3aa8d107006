/** Byte chunks laid end to end, as a writer lays fields out on the wire,
    and where each chunk lands in the result. Nothing here knows the
    telemetry layout. */
module Chunks {

  /** The chunks, one after another. */
  function Flatten<T>(cs: seq<seq<T>>): (s: seq<T>)
  {
    if |cs| == 0 then [] else Flatten(cs[..|cs| - 1]) + cs[|cs| - 1]
  }

  /** Where chunk `j` starts: the length of everything before it. */
  function Start<T>(cs: seq<seq<T>>, j: nat): nat
    requires j <= |cs|
  {
    |Flatten(cs[..j])|
  }

  /** Flattening the first `n` chunks gives a prefix of the whole. */
  lemma {:induction false} FlattenPrefix<T>(cs: seq<seq<T>>, n: nat)
    requires n <= |cs|
    ensures Start(cs, n) <= |Flatten(cs)| && Start(cs, |cs|) == |Flatten(cs)|
    ensures Flatten(cs[..n]) == Flatten(cs)[..Start(cs, n)]
    decreases |cs|
  {
    assert cs[..|cs|] == cs;
    if n < |cs| {
      var init := cs[..|cs| - 1];
      FlattenPrefix(init, n);
      assert init[..n] == cs[..n];
      assert init[..|init|] == init;
    }
  }

  /** Chunk `j` sits in the flattened whole from its start to the next
      chunk's start. */
  lemma FlattenSlot<T>(cs: seq<seq<T>>, j: nat)
    requires j < |cs|
    ensures Start(cs, j + 1) == Start(cs, j) + |cs[j]| <= |Flatten(cs)|
    ensures Flatten(cs)[Start(cs, j)..Start(cs, j + 1)] == cs[j]
  {
    assert cs[..j + 1][..j] == cs[..j];
    assert Flatten(cs[..j + 1]) == Flatten(cs[..j]) + cs[j];
    FlattenPrefix(cs, j + 1);
    var whole := Flatten(cs);
    assert whole[Start(cs, j)..Start(cs, j + 1)] == whole[..Start(cs, j + 1)][Start(cs, j)..];
  }

  /** Every chunk sits at its start in `s`. */
  ghost predicate SlotsMatch<T>(cs: seq<seq<T>>, s: seq<T>)
  {
    forall j :: 0 <= j < |cs| ==> Start(cs, j) + |cs[j]| <= |s| && s[Start(cs, j)..Start(cs, j) + |cs[j]|] == cs[j]
  }

  /** A sequence of the flattened length that holds every chunk at its start
      is the flattened whole. */
  lemma {:induction false} FlattenOfSlots<T>(cs: seq<seq<T>>, s: seq<T>)
    requires |s| == |Flatten(cs)| && SlotsMatch(cs, s)
    ensures Flatten(cs) == s
    decreases |cs|
  {
    if |cs| > 0 {
      var n := |cs| - 1;
      var init := cs[..n];
      var head := s[..Start(cs, n)];
      FlattenSlot(cs, n);
      FlattenPrefix(cs, n);
      forall j | 0 <= j < |init|
        ensures Start(init, j) + |init[j]| <= |head| && head[Start(init, j)..Start(init, j) + |init[j]|] == init[j]
      {
        assert init[..j] == cs[..j];
        FlattenSlot(cs, j);
        FlattenPrefix(cs, n);
        assert Start(cs, j + 1) <= Start(cs, n) by {
          FlattenPrefix(cs[..n], j + 1);
          assert cs[..n][..j + 1] == cs[..j + 1];
        }
      }
      FlattenOfSlots(init, head);
      assert s == head + s[Start(cs, n)..];
    }
  }

  /** A slice of a prefix is the same slice of the whole. */
  lemma SliceOfPrefix<T>(s: seq<T>, n: nat, a: nat, b: nat)
    requires a <= b <= n <= |s|
    ensures s[..n][a..b] == s[a..b]
  {
  }
}
