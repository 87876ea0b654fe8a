/** The resampler from 24 to 16 kHz: three samples become two, in blocks that may straddle
    any number of calls. */
module Resampler {
  type Signal = seq<real>

  function Clamp(x: real): real {
    if x > 1.0 then 1.0 else if x < -1.0 then -1.0 else x
  }

  /** The whole signal at once; up to two samples at the end are left. */
  function Resampled(x: Signal): (y: Signal)
    ensures |y| == |x| / 3 * 2
    ensures forall i :: 0 <= i < |y| ==> -1.0 <= y[i] <= 1.0
  {
    if |x| < 3 then [] else [Clamp(x[0]), Clamp(0.5 * x[1] + 0.5 * x[2])] + Resampled(x[3..])
  }

  function Held(x: Signal): Signal {
    x[|x| / 3 * 3..]
  }

  /** Within the range the first of three samples is kept and the other two give their mean; out of it
      the value is the nearest in range. */
  lemma {:induction false} SampleAt(x: Signal, k: nat)
    requires 3 * k + 2 < |x|
    ensures var y, mean := Resampled(x), (x[3 * k + 1] + x[3 * k + 2]) / 2.0;
            && (-1.0 <= x[3 * k] <= 1.0 ==> y[2 * k] == x[3 * k])
            && (x[3 * k] > 1.0 ==> y[2 * k] == 1.0) && (x[3 * k] < -1.0 ==> y[2 * k] == -1.0)
            && (-1.0 <= mean <= 1.0 ==> y[2 * k + 1] == mean)
            && (mean > 1.0 ==> y[2 * k + 1] == 1.0) && (mean < -1.0 ==> y[2 * k + 1] == -1.0)
    decreases k
  {
    if k > 0 {
      SampleAt(x[3..], k - 1);
      OneBlock(x);
      hide Resampled, Clamp;
    }
  }

  lemma {:induction false} Straddle(a: Signal, b: Signal)
    ensures Resampled(a + b) == Resampled(a) + Resampled(Held(a) + b)
    ensures Held(a + b) == Held(Held(a) + b)
    decreases |a|
  {
    hide Resampled, Held;
    if |a| < 3 {
      FewHeld(a);
      assert [] + Resampled(a + b) == Resampled(a + b);
    } else {
      var c := a[3..];
      Straddle(c, b);
      BlockOff(a, b);
      OneBlock(a);
      assert Block(a) + Resampled(c) + Resampled(Held(c) + b) == Block(a) + (Resampled(c) + Resampled(Held(c) + b));
    }
  }

  lemma BlockOff(a: Signal, b: Signal)
    requires |a| >= 3
    ensures Resampled(a + b) == Block(a) + Resampled(a[3..] + b) && Held(a + b) == Held(a[3..] + b)
  {
    hide Resampled, Held;
    OneBlock(a + b);
    assert (a + b)[3..] == a[3..] + b;
    assert Block(a) == Block(a + b);
  }

  lemma FewHeld(a: Signal)
    requires |a| < 3
    ensures Held(a) == a && Resampled(a) == []
  {
  }

  function Block(x: Signal): Signal
    requires |x| >= 3
  {
    [Clamp(x[0]), Clamp(0.5 * x[1] + 0.5 * x[2])]
  }

  lemma OneBlock(x: Signal)
    requires |x| >= 3
    ensures Resampled(x) == Block(x) + Resampled(x[3..]) && Held(x) == Held(x[3..])
  {
    assert |x[3..]| / 3 == |x| / 3 - 1;
  }

  function Joined(chunks: seq<Signal>): Signal {
    if chunks == [] then [] else Joined(chunks[..|chunks| - 1]) + chunks[|chunks| - 1]
  }

  /** What is put out for one chunk after another, and what is held back at the end. */
  function Chunked(chunks: seq<Signal>): (Signal, Signal) {
    if chunks == [] then ([], [])
    else
      var (y, held) := Chunked(chunks[..|chunks| - 1]);
      var x := held + chunks[|chunks| - 1];
      (y + Resampled(x), Held(x))
  }

  lemma ChunkedSnoc(chunks: seq<Signal>, x: Signal)
    ensures var (y, held) := Chunked(chunks); Chunked(chunks + [x]) == (y + Resampled(held + x), Held(held + x))
  {
    assert (chunks + [x])[..|chunks|] == chunks;
  }

  /** However the signal is cut, the outputs join to that of the whole, and at most two samples
      are held back. */
  lemma {:induction false} AnyChunks(chunks: seq<Signal>)
    ensures Chunked(chunks) == (Resampled(Joined(chunks)), Held(Joined(chunks)))
    ensures |Chunked(chunks).1| <= 2
  {
    if chunks != [] {
      AnyChunks(chunks[..|chunks| - 1]);
      Straddle(Joined(chunks[..|chunks| - 1]), chunks[|chunks| - 1]);
    }
  }

  lemma {:induction false} BlockAt(x: Signal, i: nat)
    requires 3 * i + 2 < |x|
    ensures Resampled(x)[2 * i] == Clamp(x[3 * i])
    ensures Resampled(x)[2 * i + 1] == Clamp(0.5 * x[3 * i + 1] + 0.5 * x[3 * i + 2])
  {
    if i > 0 {
      BlockAt(x[3..], i - 1);
    }
  }

  class Resampler24kTo16k {
    var buf: Signal
    ghost var chunks: seq<Signal>

    /** The chunks so far have left the buffer. */
    ghost predicate Valid() reads this {
      |buf| < 3 && buf == Chunked(chunks).1
    }

    constructor ()
      ensures Valid() && chunks == []
    {
      buf, chunks := [], [];
    }

    method Reset()
      modifies this
      ensures Valid() && chunks == []
    {
      buf, chunks := [], [];
    }

    method Process(input: Signal) returns (out: Signal)
      requires Valid()
      modifies this
      ensures Valid() && chunks == old(chunks) + [input]
      ensures Chunked(chunks).0 == old(Chunked(chunks).0) + out
    {
      ghost var was := chunks;
      ghost var x := buf + input;
      chunks := chunks + [input];
      ChunkedSnoc(was, input);
      hide Chunked;
      if |input| == 0 {
        assert x == buf;
        FewHeld(x);
        return [];
      }
      buf := buf + input;
      var blocks := |buf| / 3;
      if blocks == 0 {
        FewHeld(x);
        assert Chunked(chunks).0 == Chunked(was).0 + [];
        return [];
      }
      out := Convert(blocks);
      buf := buf[blocks * 3..];
    }

    /** Two samples out of three. */
    method Pair(s0: real, s1: real, s2: real) returns (a: real, b: real)
      ensures a == Clamp(s0) && b == Clamp(0.5 * s1 + 0.5 * s2)
    {
      a := s0;
      if a > 1.0 {
        a := 1.0;
      } else if a < -1.0 {
        a := -1.0;
      }
      b := 0.5 * s1 + 0.5 * s2;
      if b > 1.0 {
        b := 1.0;
      } else if b < -1.0 {
        b := -1.0;
      }
    }

    method Convert(blocks: nat) returns (out: Signal)
      requires blocks == |buf| / 3
      ensures out == Resampled(buf)
    {
      ghost var y := Resampled(buf);
      hide Resampled, Clamp;
      var o := new real[blocks * 2](_ => 0.0);
      for i := 0 to blocks
        invariant forall j :: 0 <= j < 2 * i ==> o[j] == y[j]
      {
        BlockAt(buf, i);
        var s0, sMid := Pair(buf[i * 3], buf[i * 3 + 1], buf[i * 3 + 2]);
        o[i * 2] := s0;
        o[i * 2 + 1] := sMid;
      }
      out := o[..];
    }
  }
}
