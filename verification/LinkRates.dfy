/** The options of the link simulator mean what they say: of a hundred equally likely random numbers, as many
    drop, cut or damage a packet as the rate says, and half of them lengthen the delay. */
module LinkRates {
  import opened Options
  import opened Packets
  import opened LinkSpec

  /** The numbers from k on, below n. */
  function Range(k: nat, n: nat): (s: set<nat>)
    ensures forall r: nat :: r in s <==> k <= r < n
    ensures |s| == if k <= n then n - k else 0
  {
    if n <= k then {} else Range(k, n - 1) + {n - 1}
  }

  /** A percentage above 100 is 100. */
  function Percent(rate: nat): nat {
    if rate <= 100 then rate else 100
  }

  /** Of the hundred values that the first random number can have, lossRate drop the packet. */
  lemma DropRate(cfg: Config, rolls: Rolls, len: nat)
    requires len > 0
    ensures |set r: nat | r < 100 && Fate(cfg, rolls.(loss := r), len) == None| == Percent(cfg.lossRate)
  {
    assert (set r: nat | r < 100 && Fate(cfg, rolls.(loss := r), len) == None) == Range(0, Percent(cfg.lossRate));
  }

  /** Of a packet longer than a header that is not dropped, cutRate in a hundred are cut; a header alone
      never is. */
  lemma CutRate(cfg: Config, rolls: Rolls, len: nat)
    requires len > 0 && Fate(cfg, rolls, len).Some?
    ensures |set r: nat | r < 100 && Fate(cfg, rolls.(cut := r), len) == Some(Truncated)| ==
            if len > 12 then Percent(cfg.cutRate) else 0
  {
    var k := if len > 12 then Percent(cfg.cutRate) else 0;
    assert (set r: nat | r < 100 && Fate(cfg, rolls.(cut := r), len) == Some(Truncated)) == Range(0, k);
  }

  /** Of those neither dropped nor cut, errRate in a hundred are damaged, in the byte that the last random
      number chooses; the others are left alone. */
  lemma DamageRate(cfg: Config, rolls: Rolls, len: nat, byte: nat)
    requires len > 0 && Fate(cfg, rolls, len).Some? && Fate(cfg, rolls, len).value != Truncated
    requires byte == rolls.index % len
    ensures |set r: nat | r < 100 && Fate(cfg, rolls.(err := r), len) == Some(Inverted(byte))| == Percent(cfg.errRate)
    ensures Fate(cfg, rolls, len).value == Intact || Fate(cfg, rolls, len).value == Inverted(byte)
  {
    var k := Percent(cfg.errRate);
    DamagedBelow(cfg, rolls, len, byte);
    assert (set r: nat | r < 100 && Fate(cfg, rolls.(err := r), len) == Some(Inverted(byte))) == Range(0, k);
  }

  lemma DamagedBelow(cfg: Config, rolls: Rolls, len: nat, byte: nat)
    requires len > 0 && Fate(cfg, rolls, len).Some? && Fate(cfg, rolls, len).value != Truncated
    requires byte == rolls.index % len
    ensures forall r: nat :: r < 100 ==>
              (Fate(cfg, rolls.(err := r), len) == Some(Inverted(byte)) <==> r < Percent(cfg.errRate))
  {
  }

  /** Every byte of the packet can be the one. */
  lemma AnyByte(cfg: Config, rolls: Rolls, len: nat, i: nat)
    requires i < len && cfg.errRate > 0 && Fate(cfg, rolls, len).Some? && Fate(cfg, rolls, len).value != Truncated
    ensures Fate(cfg, rolls.(err := 0, index := i), len) == Some(Inverted(i))
  {
    SmallRemainder(i, len);
  }

  /** The values of the random number that decides on the sign for which the delay becomes d. */
  function SignsFor(cfg: Config, rolls: Rolls, d: int): set<nat> {
    set r: nat | r < 100 && JitteredDelay(cfg, rolls.(sign := r)) == d
  }

  /** The jitter is added for half of the hundred values, from 50 on, and taken away for the other half. */
  lemma HalfLonger(cfg: Config, rolls: Rolls)
    requires cfg.jitter > 0 && rolls.extra % cfg.jitter > 0
    ensures var extra := rolls.extra % cfg.jitter;
            && |SignsFor(cfg, rolls, cfg.delay + extra)| == 50 && 50 in SignsFor(cfg, rolls, cfg.delay + extra)
            && |SignsFor(cfg, rolls, cfg.delay - extra)| == 50 && 49 in SignsFor(cfg, rolls, cfg.delay - extra)
  {
    var extra: nat := rolls.extra % cfg.jitter;
    SignDecides(cfg, rolls, extra);
    UpperSigns(cfg, rolls, extra, 50, 100);
    LowerSigns(cfg, rolls, extra, 50);
  }

  lemma UpperSigns(cfg: Config, rolls: Rolls, extra: nat, k: nat, n: nat)
    requires extra > 0 && k == 50 && n == 100
    requires forall r: nat ::
               JitteredDelay(cfg, rolls.(sign := r)) == if r >= k then cfg.delay + extra else cfg.delay - extra
    ensures |SignsFor(cfg, rolls, cfg.delay + extra)| == 50 && 50 in SignsFor(cfg, rolls, cfg.delay + extra)
  {
    var signs := SignsFor(cfg, rolls, cfg.delay + extra);
    assert forall r: nat :: r in signs <==> r in Range(k, n);
    assert signs == Range(k, n);
  }

  lemma LowerSigns(cfg: Config, rolls: Rolls, extra: nat, k: nat)
    requires extra > 0 && k == 50
    requires forall r: nat ::
               JitteredDelay(cfg, rolls.(sign := r)) == if r >= k then cfg.delay + extra else cfg.delay - extra
    ensures |SignsFor(cfg, rolls, cfg.delay - extra)| == 50 && 49 in SignsFor(cfg, rolls, cfg.delay - extra)
  {
    assert SignsFor(cfg, rolls, cfg.delay - extra) == Range(0, k);
  }

  lemma SignDecides(cfg: Config, rolls: Rolls, extra: nat)
    requires cfg.jitter > 0 && extra == rolls.extra % cfg.jitter
    ensures forall r: nat ::
              JitteredDelay(cfg, rolls.(sign := r)) == if r >= 50 then cfg.delay + extra else cfg.delay - extra
  {
  }
}
