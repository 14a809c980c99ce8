/** 32-bit sequence numbers and the 64-bit stream positions they stand for. */
module WrappingIntegers {
  import opened Integers

  /** The 32-bit name of position `n`, with positions taken as unbounded. */
  function Wrap(n: nat, isn: u32): u32 {
    (n + isn) % 0x1_0000_0000
  }

  /** The position named `n` that the code picks near `checkpoint`, positions taken as unbounded. */
  function Unwrap(n: u32, isn: u32, checkpoint: nat): nat {
    var here := Wrap(checkpoint, isn);
    var ahead := (n - here) % 0x1_0000_0000;
    var behind := (here - n) % 0x1_0000_0000;
    if ahead > behind && checkpoint >= behind then checkpoint - behind else checkpoint + ahead
  }

  /** `wrap` with its 64-bit addition. */
  function Wrap64(n: u64, isn: u32): u32 {
    ((n + isn) % 0x1_0000_0000_0000_0000) % 0x1_0000_0000
  }

  /** `unwrap` with its 64-bit addition: a sum past the top of the range wraps to a small position. */
  function Unwrap64(n: u32, isn: u32, checkpoint: u64): u64 {
    var here := Wrap64(checkpoint, isn);
    var ahead := (n - here) % 0x1_0000_0000;
    var behind := (here - n) % 0x1_0000_0000;
    if ahead > behind && checkpoint >= behind
    then checkpoint - behind
    else (checkpoint + ahead) % 0x1_0000_0000_0000_0000
  }

  lemma WrapsAgree(n: u64, isn: u32)
    ensures Wrap64(n, isn) == Wrap(n, isn)
  {
  }

  /** How far ahead of, and behind, the checkpoint the two nearest positions named `n` lie. */
  lemma Offsets(n: u32, isn: u32, checkpoint: nat) returns (ahead: nat, behind: nat, turns: nat)
    ensures ahead == (n - Wrap(checkpoint, isn)) % 0x1_0000_0000
    ensures behind == (Wrap(checkpoint, isn) - n) % 0x1_0000_0000
    ensures if ahead == 0 then behind == 0 else ahead + behind == 0x1_0000_0000
    ensures checkpoint + isn + ahead == turns * 0x1_0000_0000 + n
  {
    var here := Wrap(checkpoint, isn);
    turns := (checkpoint + isn) / 0x1_0000_0000;
    if n >= here {
      ahead := n - here;
      behind := if ahead == 0 then 0 else here - n + 0x1_0000_0000;
    } else {
      ahead := n - here + 0x1_0000_0000;
      behind := here - n;
      turns := turns + 1;
    }
  }

  /** A position named `n` is one of the two nearest, or at least a whole turn beyond one of them. */
  lemma Candidates(n: u32, isn: u32, checkpoint: nat, w: nat)
    requires Wrap(w, isn) == n
    ensures var ahead := (n - Wrap(checkpoint, isn)) % 0x1_0000_0000;
            w == checkpoint + ahead || w >= checkpoint + ahead + 0x1_0000_0000
            || w <= checkpoint + ahead - 0x1_0000_0000
  {
  }

  lemma UnwrapKeepsName(n: u32, isn: u32, checkpoint: nat)
    ensures Wrap(Unwrap(n, isn, checkpoint), isn) == n
  {
  }

  /** No position named `n`, however large, is nearer the checkpoint than the one chosen. */
  lemma UnwrapIsNearest(n: u32, isn: u32, checkpoint: nat, w: nat)
    ensures Wrap(Unwrap(n, isn, checkpoint), isn) == n
    ensures Wrap(w, isn) == n ==> Abs(Unwrap(n, isn, checkpoint) - checkpoint) <= Abs(w - checkpoint)
  {
    UnwrapKeepsName(n, isn, checkpoint);
    var ahead, behind, turns := Offsets(n, isn, checkpoint);
    if Wrap(w, isn) == n {
      Candidates(n, isn, checkpoint, w);
    }
  }

  /** `v` is a position named `n`, and no other 64-bit position of that name is nearer. */
  ghost predicate Nearest(v: u64, n: u32, isn: u32, checkpoint: u64) {
    && Wrap64(v, isn) == n
    && forall w: u64 :: Wrap64(w, isn) == n ==> Abs(v - checkpoint) <= Abs(w - checkpoint)
  }

  lemma TurnBelow(w: nat, isn: u32)
    requires w >= 0x1_0000_0000
    ensures Wrap(w - 0x1_0000_0000, isn) == Wrap(w, isn)
  {
  }

  lemma Unwrap64Value(n: u32, isn: u32, checkpoint: u64)
    ensures var r := Unwrap(n, isn, checkpoint);
            && Abs(r - checkpoint) < 0x1_0000_0000
            && Unwrap64(n, isn, checkpoint)
               == if r < 0x1_0000_0000_0000_0000 then r else r - 0x1_0000_0000_0000_0000
  {
    WrapsAgree(checkpoint, isn);
    var r := Unwrap(n, isn, checkpoint);
    assert 0 <= r < 0x1_0000_0000_0000_0000 + 0x1_0000_0000;
  }

  /** One turn below an overflowing choice lies a 64-bit position of the same name, nearer than what is returned. */
  lemma OverflowMissesNearest(n: u32, isn: u32, checkpoint: u64)
    requires Unwrap(n, isn, checkpoint) >= 0x1_0000_0000_0000_0000
    ensures !Nearest(Unwrap64(n, isn, checkpoint), n, isn, checkpoint)
  {
    var r := Unwrap(n, isn, checkpoint);
    Unwrap64Value(n, isn, checkpoint);
    var lower: u64 := r - 0x1_0000_0000;
    var back: u64 := r - 0x1_0000_0000_0000_0000;
    assert Wrap64(lower, isn) == n by {
      UnwrapKeepsName(n, isn, checkpoint);
      TurnBelow(r, isn);
      WrapsAgree(lower, isn);
    }
    assert Abs(lower - checkpoint) < Abs(back - checkpoint);
  }

  lemma NearestUnlessOverflow(n: u32, isn: u32, checkpoint: u64)
    ensures Nearest(Unwrap64(n, isn, checkpoint), n, isn, checkpoint)
       <==> Unwrap(n, isn, checkpoint) < 0x1_0000_0000_0000_0000
  {
    Unwrap64Value(n, isn, checkpoint);
    var r := Unwrap(n, isn, checkpoint);
    if r < 0x1_0000_0000_0000_0000 {
      UnwrapKeepsName(n, isn, checkpoint);
      WrapsAgree(r, isn);
      forall w: u64 | Wrap64(w, isn) == n
        ensures Abs(r - checkpoint) <= Abs(w - checkpoint)
      {
        WrapsAgree(w, isn);
        UnwrapIsNearest(n, isn, checkpoint, w);
      }
    } else {
      OverflowMissesNearest(n, isn, checkpoint);
    }
  }

  /**
   * The 64-bit code returns the nearest position exactly when the name lies closer behind the checkpoint than ahead
   * of it, or the one ahead is still a 64-bit number.
   */
  lemma Unwrap64Nearest(n: u32, isn: u32, checkpoint: u64)
    ensures var here := (checkpoint + isn) % 0x1_0000_0000;
            var ahead, behind := (n - here) % 0x1_0000_0000, (here - n) % 0x1_0000_0000;
            && (Nearest(Unwrap64(n, isn, checkpoint), n, isn, checkpoint)
                <==> behind < ahead || checkpoint + ahead < 0x1_0000_0000_0000_0000)
            && (checkpoint <= 0x1_0000_0000_0000_0000 - 0x1_0000_0000 ==>
                  Unwrap64(n, isn, checkpoint) == Unwrap(n, isn, checkpoint))
  {
    NearestUnlessOverflow(n, isn, checkpoint);
    Unwrap64Value(n, isn, checkpoint);
    var ahead, behind, turns := Offsets(n, isn, checkpoint);
  }

  /** Just above the last position, the name of position 0 is taken for position 0 itself, 2^64 - 1 away. */
  lemma Unwrap64Overflows()
    ensures var top: u64 := 0xffff_ffff_ffff_ffff;
            Unwrap64(0, 0, top) == 0 && !Nearest(0, 0, 0, top)
  {
    Unwrap64Nearest(0, 0, 0xffff_ffff_ffff_ffff);
  }

  /** Exactly which positions survive `wrap` followed by `unwrap`, for every initial sequence number. */
  lemma RoundTrip(v: nat, isn: u32, checkpoint: nat)
    ensures Unwrap(Wrap(v, isn), isn, checkpoint) == v
            <==> (|| -0x8000_0000 < v - checkpoint <= 0x8000_0000
                  || (0x8000_0000 < v - checkpoint && v < 0x1_0000_0000))
  {
    var ahead, behind, turns := Offsets(Wrap(v, isn), isn, checkpoint);
    Candidates(Wrap(v, isn), isn, checkpoint, v);
  }
}
