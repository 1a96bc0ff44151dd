/** Signal sets kept as an array of machine words. */
module SigSet {
  import opened Bits

  /** Bits in a word. */
  const LONG_BIT: nat := 32

  const ONES: Word := 0xFFFF_FFFF

  // ---- The set an array of words stands for ----------------------------------------------

  /** Signals the array has room for. */
  predicate InRange(words: nat, signum: int) {
    1 <= signum <= LONG_BIT * words
  }

  /** Where a signal is: in this word, at this bit. */
  function WordOf(signum: int): int {
    (signum - 1) / LONG_BIT
  }

  function PlaceOf(signum: int): (k: Word)
    ensures k < 32
  {
    Count((signum - 1) % LONG_BIT)
  }

  lemma PlacesDiffer(words: nat, n: int, m: int)
    requires InRange(words, n) && InRange(words, m)
    ensures 0 <= WordOf(n) < words
    ensures WordOf(n) == WordOf(m) ==> (PlaceOf(n) == PlaceOf(m) <==> n == m)
  {
  }

  predicate Has(s: seq<Word>, signum: int) {
    InRange(|s|, signum) && Bit(s[WordOf(signum)], PlaceOf(signum))
  }

  function Members(s: seq<Word>): set<int> {
    set n | 1 <= n <= LONG_BIT * |s| && Has(s, n)
  }

  function All(words: nat): set<int> {
    set n | 1 <= n <= LONG_BIT * words && InRange(words, n)
  }

  function Added(s: seq<Word>, signum: int): seq<Word> {
    if !InRange(|s|, signum) then s
    else s[WordOf(signum) := WithBit(s[WordOf(signum)], PlaceOf(signum))]
  }

  function Deleted(s: seq<Word>, signum: int): seq<Word> {
    if !InRange(|s|, signum) then s
    else s[WordOf(signum) := WithoutBit(s[WordOf(signum)], PlaceOf(signum))]
  }

  /** The signal of bit `b` of word `w`. */
  function SignalAt(w: int, b: int): int {
    LONG_BIT * w + b + 1
  }

  /** Every bit of every word is one signal's, and no two signals share one. */
  lemma IndexIsBijection(words: nat)
    ensures forall n, m | InRange(words, n) && InRange(words, m) ::
              (n - 1) / LONG_BIT == (m - 1) / LONG_BIT && (n - 1) % LONG_BIT == (m - 1) % LONG_BIT ==> n == m
    ensures forall w, b | 0 <= w < words && 0 <= b < LONG_BIT ::
              var n := SignalAt(w, b);
              InRange(words, n) && (n - 1) / LONG_BIT == w && (n - 1) % LONG_BIT == b
  {
  }

  lemma AddedHas(s: seq<Word>, signum: int, n: int)
    requires InRange(|s|, signum) && InRange(|s|, n)
    ensures Has(Added(s, signum), n) <==> n == signum || Has(s, n)
  {
    hide Bit, WordOf, PlaceOf, WithBit, WithoutBit;
    PlacesDiffer(|s|, signum, n);
    PlacesDiffer(|s|, n, signum);
    if WordOf(signum) == WordOf(n) {
      BitWith(s[WordOf(n)], PlaceOf(signum), PlaceOf(n));
    }
  }

  lemma DeletedHas(s: seq<Word>, signum: int, n: int)
    requires InRange(|s|, signum) && InRange(|s|, n)
    ensures Has(Deleted(s, signum), n) <==> n != signum && Has(s, n)
  {
    hide Bit, WordOf, PlaceOf, WithBit, WithoutBit;
    PlacesDiffer(|s|, signum, n);
    PlacesDiffer(|s|, n, signum);
    if WordOf(signum) == WordOf(n) {
      BitWithout(s[WordOf(n)], PlaceOf(signum), PlaceOf(n));
    }
  }

  lemma AddedIsUnion(s: seq<Word>, signum: int)
    ensures |Added(s, signum)| == |s|
    ensures Members(Added(s, signum)) == if InRange(|s|, signum) then Members(s) + {signum} else Members(s)
  {
    hide Bit, Has, WithBit, WithoutBit;
    if InRange(|s|, signum) {
      forall n | InRange(|s|, n)
        ensures Has(Added(s, signum), n) <==> n == signum || Has(s, n)
      {
        AddedHas(s, signum, n);
      }
    }
  }

  lemma DeletedIsDifference(s: seq<Word>, signum: int)
    ensures |Deleted(s, signum)| == |s|
    ensures Members(Deleted(s, signum)) == Members(s) - {signum}
  {
    hide Bit, Has, WithBit, WithoutBit;
    if InRange(|s|, signum) {
      forall n | InRange(|s|, n)
        ensures Has(Deleted(s, signum), n) <==> n != signum && Has(s, n)
      {
        DeletedHas(s, signum, n);
      }
    }
  }

  /** Two arrays of one size with the same members are the same words. */
  lemma MembersDetermineWords(s: seq<Word>, t: seq<Word>)
    requires |s| == |t| && Members(s) == Members(t)
    ensures s == t
  {
    hide Bit, Count;
    forall w | 0 <= w < |s|
      ensures s[w] == t[w]
    {
      forall k: Word | k < 32
        ensures Bit(s[w], k) == Bit(t[w], k)
      {
        var n := SignalAt(w, k as int);
        IndexIsBijection(|s|);
        CountBack(k);
        assert n in Members(s) <==> Has(s, n);
        assert n in Members(t) <==> Has(t, n);
      }
      SameBitsSameWord(s[w], t[w]);
    }
  }

  lemma ZerosAreEmpty(s: seq<Word>)
    requires forall w | 0 <= w < |s| :: s[w] == 0
    ensures Members(s) == {}
  {
  }

  lemma OnesAreAll(s: seq<Word>)
    requires forall w | 0 <= w < |s| :: s[w] == ONES
    ensures Members(s) == All(|s|)
  {
  }

  // ---- The code --------------------------------------------------------------------------

  method SigEmptySet(signals: array?<Word>) returns (r: int)
    modifies signals
    ensures r == if signals == null then -1 else 0
    ensures signals != null ==> Members(signals[..]) == {}
  {
    if signals == null {
      return -1;
    }
    for i := 0 to signals.Length
      invariant forall w | 0 <= w < i :: signals[w] == 0
    {
      signals[i] := 0;
    }
    ZerosAreEmpty(signals[..]);
    r := 0;
  }

  method SigFillSet(signals: array?<Word>) returns (r: int)
    modifies signals
    ensures r == if signals == null then -1 else 0
    ensures signals != null ==> Members(signals[..]) == All(signals.Length)
  {
    if signals == null {
      return -1;
    }
    for i := 0 to signals.Length
      invariant forall w | 0 <= w < i :: signals[w] == ONES
    {
      signals[i] := ONES;
    }
    OnesAreAll(signals[..]);
    r := 0;
  }

  method SigAddSet(signals: array?<Word>, signum: int) returns (r: int)
    modifies signals
    ensures r == if signals == null || !InRange(signals.Length, signum) then -1 else 0
    ensures signals != null && r == -1 ==> signals[..] == old(signals[..])
    ensures r == 0 ==> Members(signals[..]) == Members(old(signals[..])) + {signum}
  {
    hide Bit, Members, WithBit, WithoutBit, Count;
    var bit := signum - 1;
    if signals == null || bit < 0 || bit >= LONG_BIT * signals.Length {
      return -1;
    }
    signals[bit / LONG_BIT] := WithBit(signals[bit / LONG_BIT], Count(bit % LONG_BIT));
    assert signals[..] == Added(old(signals[..]), signum);
    AddedIsUnion(old(signals[..]), signum);
    r := 0;
  }

  method SigDelSet(signals: array?<Word>, signum: int) returns (r: int)
    modifies signals
    ensures r == if signals == null || !InRange(signals.Length, signum) then -1 else 0
    ensures signals != null && r == -1 ==> signals[..] == old(signals[..])
    ensures r == 0 ==> Members(signals[..]) == Members(old(signals[..])) - {signum}
  {
    hide Bit, Members, WithBit, WithoutBit, Count;
    var bit := signum - 1;
    if signals == null || bit < 0 || bit >= LONG_BIT * signals.Length {
      return -1;
    }
    signals[bit / LONG_BIT] := WithoutBit(signals[bit / LONG_BIT], Count(bit % LONG_BIT));
    assert signals[..] == Deleted(old(signals[..]), signum);
    DeletedIsDifference(old(signals[..]), signum);
    r := 0;
  }

  /** -1 outside the range, else whether the signal is a member. */
  function IsMember(s: seq<Word>, signum: int): (r: int)
    ensures r == if !InRange(|s|, signum) then -1 else if signum in Members(s) then 1 else 0
  {
    var bit := signum - 1;
    if bit < 0 || bit >= LONG_BIT * |s| then -1
    else
      assert signum in Members(s) <==> Has(s, signum);
      ((s[bit / LONG_BIT] >> Count(bit % LONG_BIT)) & 1) as int
  }

  function SigIsMember(signals: array?<Word>, signum: int): (r: int)
    reads signals
    ensures r == if signals == null || !InRange(signals.Length, signum) then -1
                 else if signum in Members(signals[..]) then 1 else 0
  {
    if signals == null then -1 else IsMember(signals[..], signum)
  }

  // ---- Any sequence of calls -------------------------------------------------------------

  datatype Op = Empty | Fill | Add(signum: int) | Del(signum: int)

  function Apply(s: seq<Word>, op: Op): (t: seq<Word>)
    ensures |t| == |s|
  {
    match op
    case Empty => seq(|s|, i => 0)
    case Fill => seq(|s|, i => ONES)
    case Add(n) => Added(s, n)
    case Del(n) => Deleted(s, n)
  }

  function ApplyAll(s: seq<Word>, ops: seq<Op>): (t: seq<Word>)
    ensures |t| == |s|
    decreases |ops|
  {
    if ops == [] then s else ApplyAll(Apply(s, ops[0]), ops[1..])
  }

  /** The same calls on a mathematical set over the signals there is room for. */
  function ApplySet(room: set<int>, m: set<int>, ops: seq<Op>): set<int>
    decreases |ops|
  {
    if ops == [] then m
    else
      var next := match ops[0]
        case Empty => {}
        case Fill => room
        case Add(n) => m + ({n} * room)
        case Del(n) => m - {n};
      ApplySet(room, next, ops[1..])
  }

  /** After any calls, membership reads back what they did to a set. */
  lemma {:induction false} WordsAreSets(s: seq<Word>, ops: seq<Op>, signum: int)
    ensures Members(ApplyAll(s, ops)) == ApplySet(All(|s|), Members(s), ops)
    ensures IsMember(ApplyAll(s, ops), signum) ==
            if signum !in All(|s|) then -1 else if signum in ApplySet(All(|s|), Members(s), ops) then 1 else 0
    decreases |ops|
  {
    hide Bit, Members;
    if ops != [] {
      var t := Apply(s, ops[0]);
      match ops[0] {
        case Empty => ZerosAreEmpty(t);
        case Fill => OnesAreAll(t);
        case Add(n) =>
          AddedIsUnion(s, n);
          assert Members(t) == Members(s) + ({n} * All(|s|));
        case Del(n) => DeletedIsDifference(s, n);
      }
      WordsAreSets(t, ops[1..], signum);
    }
  }
}
