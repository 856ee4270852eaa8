/** The compression function on the Armv8 SHA-256 instructions: four rounds at a time over a four-slot ring. */
module Neon {
  import opened Bytes
  import opened Sha256
  import opened Words

  /** A 128-bit register of four 32-bit lanes, lane 0 lowest. */
  datatype Lanes = Lanes(w0: Word, w1: Word, w2: Word, w3: Word)

  // ---------------------------------------------------------------- the instructions, as the Arm manual defines them

  function ShaChoose(x: Word, y: Word, z: Word): Word { Xor(And(Xor(y, z), x), z) }

  function ShaMajority(x: Word, y: Word, z: Word): Word { Or(And(x, y), And(Or(x, y), z)) }

  /** One iteration of the instructions' internal loop: both registers rotate left by one lane together. */
  function ShaStep(x: Lanes, y: Lanes, wk: Word): (Lanes, Lanes) {
    var t := Add(Add(Add(y.w3, BigSigma1(y.w0)), ShaChoose(y.w0, y.w1, y.w2)), wk);
    var x3 := Add(t, x.w3);
    var y3 := Add(Add(t, BigSigma0(x.w0)), ShaMajority(x.w0, x.w1, x.w2));
    (Lanes(y3, x.w0, x.w1, x.w2), Lanes(x3, y.w0, y.w1, y.w2))
  }

  function ShaHash(x: Lanes, y: Lanes, wk: Lanes): (Lanes, Lanes) {
    var (x, y) := ShaStep(x, y, wk.w0);
    var (x, y) := ShaStep(x, y, wk.w1);
    var (x, y) := ShaStep(x, y, wk.w2);
    ShaStep(x, y, wk.w3)
  }

  function Sha256H(abcd: Lanes, efgh: Lanes, wk: Lanes): Lanes { ShaHash(abcd, efgh, wk).0 }

  function Sha256H2(efgh: Lanes, abcd: Lanes, wk: Lanes): Lanes { ShaHash(abcd, efgh, wk).1 }

  function Sha256Su0(a: Lanes, b: Lanes): Lanes {
    Lanes(Add(SmallSigma0(a.w1), a.w0), Add(SmallSigma0(a.w2), a.w1),
          Add(SmallSigma0(a.w3), a.w2), Add(SmallSigma0(b.w0), a.w3))
  }

  function Sha256Su1(a: Lanes, b: Lanes, c: Lanes): Lanes {
    var r0 := Add(Add(SmallSigma1(c.w2), a.w0), b.w1);
    var r1 := Add(Add(SmallSigma1(c.w3), a.w1), b.w2);
    Lanes(r0, r1, Add(Add(SmallSigma1(r0), a.w2), b.w3), Add(Add(SmallSigma1(r1), a.w3), c.w0))
  }

  function VAdd(a: Lanes, b: Lanes): Lanes {
    Lanes(Add(a.w0, b.w0), Add(a.w1, b.w1), Add(a.w2, b.w2), Add(a.w3, b.w3))
  }

  /** A four-word load. */
  function VLoad(words: seq<Word>, at: nat): Lanes
    requires at + 4 <= |words|
  {
    Lanes(words[at], words[at + 1], words[at + 2], words[at + 3])
  }

  /** A sixteen-byte load with the bytes of each four-byte group reversed, read as little-endian lanes. */
  function VLoadReversed(bytes: seq<u8>, at: nat): Lanes
    requires at + 16 <= |bytes|
  {
    Lanes(ReversedGroup(bytes, at), ReversedGroup(bytes, at + 4),
          ReversedGroup(bytes, at + 8), ReversedGroup(bytes, at + 12))
  }

  function ReversedGroup(bytes: seq<u8>, at: nat): Word
    requires at + 4 <= |bytes|
  {
    var group := [bytes[at + 3], bytes[at + 2], bytes[at + 1], bytes[at]];
    LittleEndianBound(group); Pow256Values();
    FromLittleEndian(group)
  }

  // ---------------------------------------------------------------- each instruction against the standard

  /** The eight working variables held in the two registers. */
  function Join(abcd: Lanes, efgh: Lanes): Vars {
    Vars(abcd.w0, abcd.w1, abcd.w2, abcd.w3, efgh.w0, efgh.w1, efgh.w2, efgh.w3)
  }

  /** Schedule words 4g to 4g+3. */
  function FourWords(block: Block, g: nat): Lanes {
    Lanes(Schedule(block, 4 * g), Schedule(block, 4 * g + 1), Schedule(block, 4 * g + 2), Schedule(block, 4 * g + 3))
  }

  lemma ChooseIsCh(x: Word, y: Word, z: Word)
    ensures ShaChoose(x, y, z) == Ch(x, y, z)
  {
    ChooseBits(x, y, z, 32);
  }

  lemma MajorityIsMaj(x: Word, y: Word, z: Word)
    ensures ShaMajority(x, y, z) == Maj(x, y, z)
  {
    MajorityBits(x, y, z, 32);
  }

  /** One instruction step is one round of the standard, although W and K arrive pre-summed. */
  lemma StepIsRound(x: Lanes, y: Lanes, w: Word, k: Word)
    ensures var (x', y') := ShaStep(x, y, Add(w, k)); Join(x', y') == Round(Join(x, y), k, w)
  {
    ChooseIsCh(y.w0, y.w1, y.w2);
    MajorityIsMaj(x.w0, x.w1, x.w2);
    var p := Add(Add(y.w3, BigSigma1(y.w0)), Ch(y.w0, y.w1, y.w2));
    var t := Add(p, Add(w, k));
    AddAssoc(p, k, w);
    AddComm(k, w);
    AddComm(t, x.w3);
    AddAssoc(t, BigSigma0(x.w0), Maj(x.w0, x.w1, x.w2));
  }

  /** SHA256H and SHA256H2 together run four rounds. */
  lemma HashIsFourRounds(start: Vars, block: Block, g: nat, abcd: Lanes, efgh: Lanes)
    requires |K| == 64 && g < 16 && Join(abcd, efgh) == Rounds(start, block, 4 * g)
    ensures var wk := VAdd(FourWords(block, g), VLoad(K, 4 * g));
            Join(Sha256H(abcd, efgh, wk), Sha256H2(efgh, abcd, wk)) == Rounds(start, block, 4 * g + 4)
  {
    hide ShaStep, Round, Schedule, Add;
    var t := 4 * g;
    var wk := VAdd(FourWords(block, g), VLoad(K, t));
    var (x1, y1) := ShaStep(abcd, efgh, wk.w0);
    var (x2, y2) := ShaStep(x1, y1, wk.w1);
    var (x3, y3) := ShaStep(x2, y2, wk.w2);
    StepIsRound(abcd, efgh, Schedule(block, t), K[t]);
    assert Join(x1, y1) == Rounds(start, block, t + 1);
    StepIsRound(x1, y1, Schedule(block, t + 1), K[t + 1]);
    assert Join(x2, y2) == Rounds(start, block, t + 2);
    StepIsRound(x2, y2, Schedule(block, t + 2), K[t + 2]);
    assert Join(x3, y3) == Rounds(start, block, t + 3);
    StepIsRound(x3, y3, Schedule(block, t + 3), K[t + 3]);
  }

  lemma SumOrder(s1: Word, p: Word, q: Word, r: Word)
    ensures Add(Add(s1, Add(p, q)), r) == Add(Add(Add(s1, r), p), q)
  {
    AddAssoc(s1, Add(p, q), r);
    AddComm(Add(p, q), r);
    AddAssoc(s1, r, Add(p, q));
    AddAssoc(Add(s1, r), p, q);
  }

  /** SHA256SU1 after SHA256SU0 extends the schedule by the four words sixteen places ahead. */
  lemma Su1IsSchedule(block: Block, g: nat)
    ensures Sha256Su1(Sha256Su0(FourWords(block, g), FourWords(block, g + 1)), FourWords(block, g + 2), FourWords(block, g + 3))
            == FourWords(block, g + 4)
  {
    var t := 4 * g;
    ScheduleStep(block, t);
    ScheduleStep(block, t + 1);
    ScheduleStep(block, t + 2);
    ScheduleStep(block, t + 3);
  }

  lemma ScheduleStep(block: Block, t: nat)
    ensures Schedule(block, t + 16)
            == Add(Add(SmallSigma1(Schedule(block, t + 14)), Add(SmallSigma0(Schedule(block, t + 1)), Schedule(block, t))),
                   Schedule(block, t + 9))
  {
    SumOrder(SmallSigma1(Schedule(block, t + 14)), SmallSigma0(Schedule(block, t + 1)), Schedule(block, t), Schedule(block, t + 9));
  }

  lemma FourBytes(b0: u8, b1: u8, b2: u8, b3: u8)
    ensures FromLittleEndian([b3, b2, b1, b0]) == FromBigEndian([b0, b1, b2, b3])
  {
    var le: seq<u8>, be: seq<u8> := [b3, b2, b1, b0], [b0, b1, b2, b3];
    assert FromLittleEndian(le[1..][1..][1..]) == b0;
    assert FromLittleEndian(le[1..][1..]) == b1 + 256 * b0;
    assert FromLittleEndian(le[1..]) == b2 + 256 * (b1 + 256 * b0);
    assert FromBigEndian(be[..3][..2][..1]) == b0;
    assert FromBigEndian(be[..3][..2]) == 256 * b0 + b1;
    assert FromBigEndian(be[..3]) == 256 * (256 * b0 + b1) + b2;
  }

  lemma ReversedGroupIsBe(block: Block, t: nat)
    requires t < 16
    ensures ReversedGroup(block, 4 * t) == Schedule(block, t)
  {
    var b := block[4 * t..4 * t + 4];
    FourBytes(b[0], b[1], b[2], b[3]);
    assert b == [b[0], b[1], b[2], b[3]];
  }

  /** The ring before group `group`: the schedule words of this group and the three after it that still exist. */
  ghost predicate RingHolds(ring: seq<Lanes>, block: Block, group: nat) {
    |ring| == 4 && forall g :: group <= g < group + 4 && g < 16 ==> ring[g % 4] == FourWords(block, g)
  }

  /** Four groups in a row take four different slots, and the fifth takes the first one's again. */
  lemma Slots(group: nat, g: nat)
    ensures (group + 4) % 4 == group % 4
    ensures (group + 1) % 4 == (group % 4 + 1) % 4 && (group + 2) % 4 == (group % 4 + 2) % 4 && (group + 3) % 4 == (group % 4 + 3) % 4
    ensures group < g < group + 4 ==> g % 4 != group % 4
  {
  }

  lemma RingStep(ring: seq<Lanes>, block: Block, group: nat)
    requires group < 16 && RingHolds(ring, block, group)
    ensures ring[group % 4] == FourWords(block, group)
    ensures var i := group % 4;
            RingHolds(if group < 12 then
                        ring[i := Sha256Su1(Sha256Su0(ring[i], ring[(i + 1) % 4]), ring[(i + 2) % 4], ring[(i + 3) % 4])]
                      else ring, block, group + 1)
  {
    hide FourWords, Sha256Su0, Sha256Su1;
    if group < 12 {
      var i := group % 4;
      Slots(group, group + 1);
      var extended := Sha256Su1(Sha256Su0(ring[i], ring[(i + 1) % 4]), ring[(i + 2) % 4], ring[(i + 3) % 4]);
      assert extended == FourWords(block, group + 4) by {
        assert ring[i] == FourWords(block, group) && ring[(i + 1) % 4] == FourWords(block, group + 1);
        assert ring[(i + 2) % 4] == FourWords(block, group + 2) && ring[(i + 3) % 4] == FourWords(block, group + 3);
        Su1IsSchedule(block, group);
      }
      forall g | group + 1 <= g < group + 5 && g < 16 ensures ring[i := extended][g % 4] == FourWords(block, g) {
        Slots(group, g);
      }
    }
  }

  // ---------------------------------------------------------------- the routine

  /** Four rounds: SHA256H2 takes the `abcd` from before SHA256H replaced it. */
  method FourRounds(abcd: Lanes, efgh: Lanes, words: Lanes, group: nat, ghost start: Vars, ghost block: Block)
    returns (abcd': Lanes, efgh': Lanes)
    requires |K| == 64 && group < 16 && words == FourWords(block, group)
    requires Join(abcd, efgh) == Rounds(start, block, 4 * group)
    ensures Join(abcd', efgh') == Rounds(start, block, 4 * group + 4)
  {
    hide FourWords, Rounds, Sha256H, Sha256H2;
    HashIsFourRounds(start, block, group, abcd, efgh);
    var wk := VAdd(words, VLoad(K, 4 * group));
    var abcdBefore := abcd;
    abcd' := Sha256H(abcd, efgh, wk);
    efgh' := Sha256H2(efgh, abcdBefore, wk);
  }

  /** Absorbs one block: sixteen groups of four rounds; slot `group % 4` is rewritten once it has been used. */
  method CompressBlockNeon(state: array<Word>, block: Block)
    requires state.Length == 8
    modifies state
    ensures state[..] == Compressed(old(state[..]), block)
  {
    hide FourWords, Round, RingHolds, Sha256H, Sha256H2, Sha256Su0, Sha256Su1, VAdd, FeedForward, Load;
    KLength();
    var abcdOrig := VLoad(state[..], 0);
    var efghOrig := VLoad(state[..], 4);
    var abcd, efgh := abcdOrig, efghOrig;
    ghost var start := Load(state[..]);
    StoredIsFeedForward(state[..], abcd, efgh);
    var w := LoadRing(block);
    for group := 0 to 16
      invariant Join(abcd, efgh) == Rounds(start, block, 4 * group)
      invariant RingHolds(w[..], block, group)
      invariant state[..] == old(state[..])
    {
      var i := group % 4;
      RingStep(w[..], block, group);
      abcd, efgh := FourRounds(abcd, efgh, w[i], group, start, block);
      if group < 12 {
        w[i] := Sha256Su1(Sha256Su0(w[i], w[(i + 1) % 4]), w[(i + 2) % 4], w[(i + 3) % 4]);
      }
    }
    StoreLanes(state, VAdd(abcd, abcdOrig), VAdd(efgh, efghOrig));
    StoredIsFeedForward(old(state[..]), abcd, efgh);
  }

  /** Lane-wise addition of the saved registers is the reference's feed-forward. */
  lemma StoredIsFeedForward(state: State, abcd: Lanes, efgh: Lanes)
    ensures Join(VLoad(state, 0), VLoad(state, 4)) == Load(state)
    ensures FeedForward(state, Join(abcd, efgh))
            == Stored(VAdd(abcd, VLoad(state, 0)), VAdd(efgh, VLoad(state, 4)))
  {
  }

  function Stored(abcd: Lanes, efgh: Lanes): State {
    [abcd.w0, abcd.w1, abcd.w2, abcd.w3, efgh.w0, efgh.w1, efgh.w2, efgh.w3]
  }

  method LoadRing(block: Block) returns (w: array<Lanes>)
    ensures fresh(w) && w.Length == 4 && RingHolds(w[..], block, 0)
  {
    hide Schedule, ReversedGroup;
    w := new Lanes[4](i => Lanes(0, 0, 0, 0));
    forall t | 0 <= t < 16 ensures ReversedGroup(block, 4 * t) == Schedule(block, t) {
      ReversedGroupIsBe(block, t);
    }
    w[0] := VLoadReversed(block, 0);
    w[1] := VLoadReversed(block, 16);
    w[2] := VLoadReversed(block, 32);
    w[3] := VLoadReversed(block, 48);
  }

  method StoreLanes(state: array<Word>, abcd: Lanes, efgh: Lanes)
    requires state.Length == 8
    modifies state
    ensures state[..] == Stored(abcd, efgh)
  {
    state[0], state[1], state[2], state[3] := abcd.w0, abcd.w1, abcd.w2, abcd.w3;
    state[4], state[5], state[6], state[7] := efgh.w0, efgh.w1, efgh.w2, efgh.w3;
  }
}
