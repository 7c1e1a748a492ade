/**
 The choice of the engine frequency from the load table: adjust_ve_freq_by_case_load_sun55iw3 and
 its performance table.
 */
module Frequency {
  import opened LoadTables

  const H264: int := 2
  const H265: int := 3
  const VP9: int := 4
  const OTHER: int := 5
  const DECODER_MAX: int := 0x100
  const MAX_FREQ: int := 900
  const MAX_PIXELS: nat := 7680 * 4320 * 60
  const UINT: nat := 0x1_0000_0000

  const FULL_HD := Param(1920, 1088, 60, H264, 0, 0)
  const ONE_PIXEL := Param(1, 1, 1, H264, 0, 0)

  const LEVEL1: nat := 1280 * 736 * 60
  const LEVEL2: nat := 1920 * 1088 * 30
  const LEVEL3: nat := 1920 * 1088 * 60

  /** struct performat_info; the level column is not used by the choice. */
  datatype Row = Row(codec: int, start: nat, end: nat, freq: int)

  const ROWS: seq<Row> := [
    Row(H264, 0, LEVEL1, 100), Row(H264, LEVEL1 + 1, LEVEL2, 200),
    Row(H264, LEVEL2 + 1, LEVEL3, 350), Row(H264, LEVEL3 + 1, MAX_PIXELS, MAX_FREQ),
    Row(H265, 0, LEVEL1, 100), Row(H265, LEVEL1 + 1, LEVEL2, 150),
    Row(H265, LEVEL2 + 1, LEVEL3, 350), Row(H265, LEVEL3 + 1, MAX_PIXELS, MAX_FREQ),
    Row(VP9, 0, LEVEL1, 150), Row(VP9, LEVEL1 + 1, LEVEL2, 200),
    Row(VP9, LEVEL2 + 1, LEVEL3, 350), Row(VP9, LEVEL3 + 1, MAX_PIXELS, MAX_FREQ),
    Row(OTHER, 0, MAX_PIXELS, MAX_FREQ)]

  predicate RowMatches(r: Row, codec: int, total: nat) {
    codec == r.codec && r.start <= total <= r.end
  }

  datatype Choice = Keep | Request(freq: int)

  /** What is requested when row k is the match. */
  function RowChoice(r: Row, user: int): Choice {
    Request(if r.freq == MAX_FREQ then user else r.freq)
  }

  /** The first matching row decides; without one nothing is requested. */
  function Match(codec: int, total: nat, user: int, k: nat): Choice
    requires k <= |ROWS|
    decreases |ROWS| - k
  {
    if k == |ROWS| then Keep
    else if RowMatches(ROWS[k], codec, total) then RowChoice(ROWS[k], user)
    else Match(codec, total, user, k + 1)
  }

  // ----- the loop over the load table

  /** The frame rate that the loop writes back when it is not positive. */
  function Normal(p: Param): Param {
    if p.frameRate <= 0 then p.(frameRate := 60) else p
  }

  /** Pixels per second, in the driver's unsigned 32-bit arithmetic. */
  function Pixels(p: Param): nat {
    p.width * p.height * p.frameRate % UINT
  }

  datatype Tally = Tally(total: nat, decoders: nat, encoders: nat, mixed: bool, previous: int, last: int)

  const NOTHING := Tally(0, 0, 0, false, -1, -1)

  function Add(a: Tally, p: Param): Tally {
    var previous := if a.previous == -1 then p.codec else a.previous;
    Tally((a.total + Pixels(p)) % UINT,
          if p.codec < DECODER_MAX then a.decoders + 1 else a.decoders,
          if p.codec < DECODER_MAX then a.encoders else a.encoders + 1,
          a.mixed || previous != p.codec, previous, p.codec)
  }

  function Sum(ps: seq<Param>): Tally {
    if ps == [] then NOTHING else Add(Sum(ps[..|ps| - 1]), ps[|ps| - 1])
  }

  function Decide(a: Tally, user: int): Choice {
    if a.decoders + a.encoders == 0 then Keep
    else if a.encoders > 0 || a.decoders > 2 || a.mixed then Request(user)
    else Match(a.last, a.total, user, 0)
  }

  /** The choice for a list of loads in slot order. */
  function Choose(ps: seq<Param>, user: int): Choice {
    Decide(Sum(ps), user)
  }

  /** A slot after the loop has looked at it. */
  function Adjusted(x: Slot): Slot {
    if Used(x) then x.(param := Normal(x.param)) else x
  }

  /** The loads of the used slots, in slot order, with normal frame rates. */
  function UsedLoads(ss: seq<Slot>): seq<Param> {
    if ss == [] then [] else
    var n := |ss| - 1;
    UsedLoads(ss[..n]) + if Used(ss[n]) then [Normal(ss[n].param)] else []
  }

  /**
   adjust_ve_freq_by_case_load_sun55iw3: the request is the choice for the used loads, and only frame rates
   change.
   */
  method Adjust(table: LoadTable, user: int) returns (c: Choice)
    requires table.Valid()
    modifies table.slots
    ensures c == Choose(UsedLoads(old(table.slots[..])), user)
    ensures table.Valid()
    ensures forall i :: 0 <= i < CHANNELS ==>
      var x, rate := old(table.slots[..])[i], old(table.slots[..])[i].param.frameRate;
      table.slots[i] == if x.used == 1 && rate <= 0 then x.(param := x.param.(frameRate := 60)) else x
  {
    ghost var ss := table.slots[..];
    var a := NOTHING;
    assert Sum(UsedLoads(ss[..0])) == NOTHING;
    hide Sum, UsedLoads, Add, Decide, TableInv;
    for i := 0 to CHANNELS
      invariant table.slots.Length == CHANNELS && a == Sum(UsedLoads(ss[..i]))
      invariant forall j :: i <= j < CHANNELS ==> table.slots[j] == ss[j]
      invariant forall j :: 0 <= j < i ==> table.slots[j] == Adjusted(ss[j])
    {
      SumStep(ss, i);
      if table.slots[i].used == 1 {
        if table.slots[i].param.frameRate <= 0 {
          table.slots[i] := table.slots[i].(param := table.slots[i].param.(frameRate := 60));
        }
        a := Add(a, table.slots[i].param);
      }
    }
    assert ss[..CHANNELS] == ss;
    AdjustedInv(ss, table.slots[..]);
    c := FindRow(a, user);
  }

  lemma AdjustedInv(ss: seq<Slot>, ss': seq<Slot>)
    requires TableInv(ss) && |ss'| == |ss| && forall i :: 0 <= i < |ss| ==> ss'[i] == Adjusted(ss[i])
    ensures TableInv(ss')
  {
  }

  lemma SumStep(ss: seq<Slot>, i: nat)
    requires i < |ss|
    ensures Sum(UsedLoads(ss[..i + 1])) ==
      if Used(ss[i]) then Add(Sum(UsedLoads(ss[..i])), Normal(ss[i].param)) else Sum(UsedLoads(ss[..i]))
  {
    hide Add;
    assert ss[..i + 1][..i] == ss[..i];
    if Used(ss[i]) {
      var ps := UsedLoads(ss[..i]);
      assert (ps + [Normal(ss[i].param)])[..|ps|] == ps;
    } else {
      assert UsedLoads(ss[..i + 1]) == UsedLoads(ss[..i]);
    }
  }

  /** The decisions after the loop and the search through the rows. */
  method FindRow(a: Tally, user: int) returns (c: Choice)
    ensures c == Decide(a, user)
  {
    if a.decoders + a.encoders == 0 {
      return Keep;
    }
    if a.encoders > 0 || a.decoders > 2 || a.mixed {
      return Request(user);
    }
    var i := 0;
    while i < |ROWS| && !(a.last == ROWS[i].codec && a.total >= ROWS[i].start && a.total <= ROWS[i].end)
      invariant i <= |ROWS| && Match(a.last, a.total, user, i) == Match(a.last, a.total, user, 0)
    {
      i := i + 1;
    }
    if i >= |ROWS| {
      return Keep;
    }
    return Request(if ROWS[i].freq == MAX_FREQ then user else ROWS[i].freq);
  }

  // ----- the performance table

  predicate Profiled(codec: int) {
    codec == H264 || codec == H265 || codec == VP9
  }

  /** The codecs that have rows. */
  predicate Tabled(codec: int) {
    Profiled(codec) || codec == OTHER
  }

  /** For a codec with rows and a load up to the maximum, exactly one row matches. */
  lemma OneRow(codec: int, total: nat) returns (k: nat)
    requires Tabled(codec) && total <= MAX_PIXELS
    ensures k < |ROWS| && RowMatches(ROWS[k], codec, total)
    ensures forall j :: 0 <= j < |ROWS| && RowMatches(ROWS[j], codec, total) ==> j == k
    ensures forall user :: Match(codec, total, user, 0) == RowChoice(ROWS[k], user)
  {
    var base := if codec == H264 then 0 else if codec == H265 then 4 else 8;
    k := if codec == OTHER then 12
         else base + if total <= LEVEL1 then 0 else if total <= LEVEL2 then 1 else if total <= LEVEL3 then 2 else 3;
    forall user
      ensures Match(codec, total, user, 0) == RowChoice(ROWS[k], user)
    {
      FirstMatch(codec, total, user, 0, k);
    }
  }

  lemma {:induction false} FirstMatch(codec: int, total: nat, user: int, i: nat, k: nat)
    requires i <= k < |ROWS| && RowMatches(ROWS[k], codec, total)
    requires forall j :: i <= j < k ==> !RowMatches(ROWS[j], codec, total)
    ensures Match(codec, total, user, i) == RowChoice(ROWS[k], user)
    decreases k - i
  {
    hide RowMatches;
    if i < k {
      FirstMatch(codec, total, user, i + 1, k);
    }
  }

  /**
   More load never lowers the requested frequency, for every pair of loads, if and only if the user setting is
   at least 350.
   */
  lemma MonotoneExact(codec: int, user: int)
    requires Profiled(codec)
    ensures (forall t, t' :: 0 <= t <= t' <= MAX_PIXELS ==>
               Match(codec, t, user, 0).Request? && Match(codec, t', user, 0).Request? &&
               Match(codec, t, user, 0).freq <= Match(codec, t', user, 0).freq) <==> user >= 350
  {
    hide Match, RowMatches;
    if user < 350 {
      LevelOf(codec, user, LEVEL3);
      LevelOf(codec, user, LEVEL3 + 1);
      assert Match(codec, LEVEL3, user, 0).freq > Match(codec, LEVEL3 + 1, user, 0).freq;
    } else {
      forall t, t' | 0 <= t <= t' <= MAX_PIXELS
        ensures Match(codec, t, user, 0).Request? && Match(codec, t', user, 0).Request?
        ensures Match(codec, t, user, 0).freq <= Match(codec, t', user, 0).freq
      {
        LevelOf(codec, user, t);
        LevelOf(codec, user, t');
        LevelRises(codec, user, t, t');
      }
    }
  }

  /**
   The performance table as a step function of the load, in numbers: 2 is H264, 3 is H265, 4 is VP9, 5 is any
   other.
   */
  function LevelFreq(codec: int, user: int, total: nat): int {
    if codec == 5 then user
    else if total <= 56_524_800 then (if codec == 4 then 150 else 100)
    else if total <= 62_668_800 then (if codec == 3 then 150 else 200)
    else if total <= 125_337_600 then 350
    else user
  }

  lemma LevelOf(codec: int, user: int, total: nat)
    requires Tabled(codec) && total <= MAX_PIXELS
    ensures Match(codec, total, user, 0) == Request(LevelFreq(codec, user, total))
  {
    hide Match;
    var k := OneRow(codec, total);
  }

  // ----- the tally

  lemma {:induction false} SumCounts(ps: seq<Param>)
    ensures Sum(ps).decoders + Sum(ps).encoders == |ps|
    ensures Sum(ps).encoders > 0 <==> exists p :: p in ps && p.codec >= DECODER_MAX
  {
    hide Pixels;
    if ps != [] {
      var n := |ps| - 1;
      SumCounts(ps[..n]);
      assert ps == ps[..n] + [ps[n]];
    }
  }

  predicate Decoder(p: Param) {
    p.codec < DECODER_MAX
  }

  /** With an encoder, or with more than two loads, the user setting is requested. */
  lemma CrowdUsesUser(ps: seq<Param>, user: int)
    requires |ps| > 2 || exists p :: p in ps && !Decoder(p)
    ensures Choose(ps, user) == Request(user)
  {
    hide Sum, Match;
    SumCounts(ps);
  }

  predicate AllTabled(ps: seq<Param>) {
    forall i :: 0 <= i < |ps| ==> Tabled(ps[i].codec)
  }

  lemma SumAppend(ps: seq<Param>, p: Param)
    ensures Sum(ps + [p]) == Add(Sum(ps), p)
  {
    hide Add;
    assert (ps + [p])[..|ps|] == ps;
  }

  /** For codecs with rows the marker -1 never comes back, and an unmixed tally ends with the codec it began with. */
  lemma {:induction false} TabledSum(ps: seq<Param>)
    requires ps != [] && AllTabled(ps)
    ensures var a := Sum(ps);
      a.encoders == 0 && a.previous == ps[0].codec && Tabled(a.last) && (!a.mixed ==> a.last == a.previous)
  {
    hide Pixels;
    var n := |ps| - 1;
    if n > 0 {
      TabledSum(ps[..n]);
    }
  }

  /** A decoder whose codec has rows, or an encoder. */
  predicate Known(p: Param) {
    Tabled(p.codec) || !Decoder(p)
  }

  predicate AllKnown(ps: seq<Param>) {
    forall i :: 0 <= i < |ps| ==> Known(ps[i])
  }

  /** A list of decoders with rows up to the maximum: what is requested, as a function of the total. */
  lemma KnownChoice(ps: seq<Param>, user: int)
    requires ps != [] && AllTabled(ps) && Sum(ps).total <= MAX_PIXELS
    ensures var a := Sum(ps);
      Choose(ps, user) == Request(if a.decoders > 2 || a.mixed then user else LevelFreq(a.last, user, a.total))
  {
    hide Sum, Match, LevelFreq;
    SumCounts(ps);
    TabledSum(ps);
    LevelOf(Sum(ps).last, user, Sum(ps).total);
  }

  lemma LevelRises(codec: int, user: int, t: nat, t': nat)
    requires user >= 350 && t <= t'
    ensures LevelFreq(codec, user, t) <= LevelFreq(codec, user, t') <= user
  {
  }

  // ----- slot order

  lemma SamePermutation(ps: seq<Param>, qs: seq<Param>)
    requires multiset(ps) == multiset(qs)
    ensures |ps| == |qs| && forall p :: p in ps <==> p in qs
  {
    assert |multiset(ps)| == |ps| && |multiset(qs)| == |qs|;
    forall p
      ensures p in ps <==> p in qs
    {
      assert p in ps <==> p in multiset(ps);
      assert p in qs <==> p in multiset(qs);
    }
  }

  lemma PairChoice(p: Param, q: Param, user: int)
    requires Decoder(p) && Decoder(q)
    ensures Choose([p, q], user) ==
      if p.codec == -1 || p.codec == q.codec then Match(q.codec, (Pixels(p) + Pixels(q)) % UINT, user, 0)
      else Request(user)
  {
    hide Pixels, Match;
    assert [p, q][..1] == [p] && [p][..0] == [];
    assert Sum([p]) == Add(NOTHING, p);
    assert Sum([p, q]) == Add(Sum([p]), q);
    assert Pixels(p) < UINT by {
      PixelsBelow(p);
    }
  }

  lemma PixelsBelow(p: Param)
    ensures Pixels(p) < UINT
  {
  }

  /** The row that decides for this codec and load, if any, names a fixed frequency other than the user setting. */
  predicate OwnFrequency(codec: int, total: nat, user: int) {
    forall k :: 0 <= k < |ROWS| && RowMatches(ROWS[k], codec, total) ==>
      ROWS[k].freq != MAX_FREQ && ROWS[k].freq != user
  }

  /** At most one row matches any codec and load. */
  lemma RowsDisjoint(codec: int, total: nat, j: nat, k: nat)
    requires j < |ROWS| && k < |ROWS| && RowMatches(ROWS[j], codec, total) && RowMatches(ROWS[k], codec, total)
    ensures j == k
  {
    assert forall i :: 0 <= i < |ROWS| ==> (ROWS[i].codec == OTHER <==> i == 12);
  }

  /** The user setting is requested exactly when a row with the maximum frequency or with that very setting matches. */
  lemma MatchesUser(codec: int, total: nat, user: int)
    ensures Match(codec, total, user, 0) == Request(user) <==> !OwnFrequency(codec, total, user)
  {
    hide Match, RowMatches;
    if k :| 0 <= k < |ROWS| && RowMatches(ROWS[k], codec, total) {
      forall j | 0 <= j < |ROWS| && RowMatches(ROWS[j], codec, total)
        ensures j == k
      {
        RowsDisjoint(codec, total, j, k);
      }
      FirstMatch(codec, total, user, 0, k);
    } else {
      NoMatch(codec, total, user, 0);
    }
  }

  lemma {:induction false} NoMatch(codec: int, total: nat, user: int, i: nat)
    requires i <= |ROWS| && forall j :: i <= j < |ROWS| ==> !RowMatches(ROWS[j], codec, total)
    ensures Match(codec, total, user, i) == Keep
    decreases |ROWS| - i
  {
    hide RowMatches;
    if i < |ROWS| {
      NoMatch(codec, total, user, i + 1);
    }
  }

  /**
   Two decoders of which exactly one has codec -1, which the loop cannot tell from "no codec seen yet", while
   the other's row does not lead to the user setting anyway.
   */
  predicate Sensitive(ps: seq<Param>, user: int) {
    && |ps| == 2 && Decoder(ps[0]) && Decoder(ps[1])
    && (ps[0].codec == -1) != (ps[1].codec == -1)
    && var codec := if ps[0].codec == -1 then ps[1].codec else ps[0].codec;
       OwnFrequency(codec, (Pixels(ps[0]) + Pixels(ps[1])) % UINT, user)
  }

  /** The choice depends only on the multiset of loads, not on slot order, if and only if they are not such a pair. */
  lemma OrderExact(ps: seq<Param>, user: int)
    ensures (forall qs :: multiset(qs) == multiset(ps) ==> Choose(qs, user) == Choose(ps, user)) <==>
      !Sensitive(ps, user)
  {
    hide Choose, Match, Pixels, OwnFrequency;
    if Sensitive(ps, user) {
      var p, q := ps[0], ps[1];
      MatchesUser(if p.codec == -1 then q.codec else p.codec, (Pixels(p) + Pixels(q)) % UINT, user);
      assert ps == [p, q];
      PairChoice(p, q, user);
      PairChoice(q, p, user);
      assert multiset([q, p]) == multiset(ps);
    } else {
      forall qs | multiset(qs) == multiset(ps)
        ensures Choose(qs, user) == Choose(ps, user)
      {
        SameChoice(ps, qs, user);
      }
    }
  }

  lemma SameChoice(ps: seq<Param>, qs: seq<Param>, user: int)
    requires multiset(qs) == multiset(ps) && !Sensitive(ps, user)
    ensures Choose(qs, user) == Choose(ps, user)
  {
    hide Choose, Match, Pixels, OwnFrequency;
    SamePermutation(ps, qs);
    if |ps| > 2 || exists p :: p in ps && !Decoder(p) {
      CrowdUsesUser(ps, user);
      CrowdUsesUser(qs, user);
    } else if |ps| == 2 {
      var p, q := ps[0], ps[1];
      assert ps == [p, q] && Decoder(p) && Decoder(q);
      MatchesUser(if p.codec == -1 then q.codec else p.codec, (Pixels(p) + Pixels(q)) % UINT, user);
      PairChoice(p, q, user);
      PairChoice(q, p, user);
      PairPermutation(p, q, qs);
    } else {
      ShortPermutation(ps, qs);
    }
  }

  lemma PairPermutation(p: Param, q: Param, qs: seq<Param>)
    requires multiset(qs) == multiset([p, q]) && |qs| == 2
    ensures qs == [p, q] || qs == [q, p]
  {
    assert qs == [qs[0], qs[1]];
    assert qs[0] in multiset(qs) && qs[1] in multiset(qs);
    assert p in multiset([p, q]) && q in multiset([p, q]);
    if qs[0] == qs[1] {
      assert multiset(qs)[qs[0]] == 2;
    }
  }

  lemma ShortPermutation(ps: seq<Param>, qs: seq<Param>)
    requires multiset(qs) == multiset(ps) && |ps| == |qs| <= 1
    ensures ps == qs
  {
    if |ps| == 1 {
      assert ps == [ps[0]] && qs == [qs[0]];
      assert ps[0] in multiset(ps) && qs[0] in multiset(qs);
    }
  }

  /** Codec -1 in the first or in the second slot: 100 MHz or the user setting. */
  lemma OrderMatters()
    ensures var none, one := ONE_PIXEL.(codec := -1), ONE_PIXEL;
      && Sensitive([none, one], 500)
      && Choose([none, one], 500) == Request(100) && Choose([one, none], 500) == Request(500)
  {
    var none, one := ONE_PIXEL.(codec := -1), ONE_PIXEL;
    PairChoice(none, one, 500);
    PairChoice(one, none, 500);
    assert Pixels(none) == 1 && Pixels(one) == 1;
    hide Match, Choose;
    LevelOf(H264, 500, 2);
    MatchesUser(H264, 2, 500);
  }

  // ----- more load, a higher request

  /** One more load of a known kind never lowers the request when the user setting is at least 350. */
  lemma OneMoreLoad(ps: seq<Param>, p: Param, user: int)
    requires user >= 350 && ps != [] && AllKnown(ps) && Known(p) && Sum(ps).total + Pixels(p) <= MAX_PIXELS
    ensures Choose(ps, user).Request? && Choose(ps + [p], user).Request?
    ensures Choose(ps, user).freq <= Choose(ps + [p], user).freq
  {
    hide Sum, Match, LevelFreq, Pixels, Choose;
    if e :| e in ps && !Decoder(e) {
      assert e in ps + [p];
      CrowdUsesUser(ps, user);
      CrowdUsesUser(ps + [p], user);
      return;
    }
    KnownChoice(ps, user);
    LevelRises(Sum(ps).last, user, Sum(ps).total, Sum(ps).total);
    SumAppend(ps, p);
    if Decoder(p) {
      TabledSum(ps);
      KnownChoice(ps + [p], user);
      LevelRises(Sum(ps).last, user, Sum(ps).total, Sum(ps + [p]).total);
    } else {
      assert p in ps + [p];
      CrowdUsesUser(ps + [p], user);
    }
  }

  /** Two lists of known loads, the second with one load more, in any slot. */
  ghost predicate OneMore(ps: seq<Param>, p: Param, qs: seq<Param>) {
    && ps != [] && AllKnown(ps) && Known(p) && Sum(ps).total + Pixels(p) <= MAX_PIXELS
    && multiset(qs) == multiset(ps + [p])
  }

  ghost predicate Rises(c: Choice, c': Choice) {
    c.Request? && c'.Request? && c.freq <= c'.freq
  }

  /**
   One more decoder or encoder, in whatever slot, never lowers the request, whatever runs already, if and
   only if the user setting is at least 350.
   */
  lemma MoreLoadExact(user: int)
    ensures (forall ps, p, qs :: OneMore(ps, p, qs) ==> Rises(Choose(ps, user), Choose(qs, user))) <==> user >= 350
  {
    hide Sum, Choose, Pixels, AllKnown;
    if user >= 350 {
      forall ps, p, qs | OneMore(ps, p, qs)
        ensures Rises(Choose(ps, user), Choose(qs, user))
      {
        OneMoreLoad(ps, p, user);
        NotSensitive(ps, p, user);
        SameChoice(ps + [p], qs, user);
      }
    } else {
      var ps, p := LoweredLoad(user);
      assert OneMore(ps, p, ps + [p]);
    }
  }

  lemma NotSensitive(ps: seq<Param>, p: Param, user: int)
    requires AllKnown(ps) && Known(p)
    ensures !Sensitive(ps + [p], user)
  {
    hide OwnFrequency, Pixels;
  }

  /** Storing a load in an unused slot adds it to the loads that are tallied. */
  lemma {:induction false} StoreAddsLoad(ss: seq<Slot>, i: nat, x: Slot)
    requires i < |ss| && !Used(ss[i]) && Used(x)
    ensures multiset(UsedLoads(ss[i := x])) == multiset(UsedLoads(ss) + [Normal(x.param)])
  {
    hide UsedLoads, Normal;
    var n := |ss| - 1;
    var ss' := ss[i := x];
    LastLoad(ss);
    LastLoad(ss');
    if i == n {
      assert ss'[..n] == ss[..n];
    } else {
      assert ss'[..n] == ss[..n][i := x] && ss'[n] == ss[n];
      StoreAddsLoad(ss[..n], i, x);
      AddedLast(UsedLoads(ss[..n]), UsedLoads(ss'[..n]), Normal(x.param), LoadOf(ss[n]));
    }
  }

  function LoadOf(x: Slot): seq<Param> {
    if Used(x) then [Normal(x.param)] else []
  }

  lemma LastLoad(ss: seq<Slot>)
    requires ss != []
    ensures UsedLoads(ss) == UsedLoads(ss[..|ss| - 1]) + LoadOf(ss[|ss| - 1])
  {
    hide Normal;
  }

  lemma AddedLast(ps: seq<Param>, qs: seq<Param>, p: Param, r: seq<Param>)
    requires multiset(qs) == multiset(ps + [p])
    ensures multiset(qs + r) == multiset(ps + r + [p])
  {
  }

  /** So for the load table: the request that `Adjust` makes after a new load is stored is not below the one before. */
  lemma NewLoadRises(ss: seq<Slot>, i: nat, x: Slot, user: int)
    requires i < |ss| && !Used(ss[i]) && Used(x) && user >= 350
    requires var ps := UsedLoads(ss);
      ps != [] && AllKnown(ps) && Known(x.param) && Sum(ps).total + Pixels(Normal(x.param)) <= MAX_PIXELS
    ensures Rises(Choose(UsedLoads(ss), user), Choose(UsedLoads(ss[i := x]), user))
  {
    hide Sum, Choose, Pixels, AllKnown, UsedLoads;
    StoreAddsLoad(ss, i, x);
    MoreLoadExact(user);
    assert OneMore(UsedLoads(ss), Normal(x.param), UsedLoads(ss[i := x]));
  }

  /** Full HD at 60 frames is requested at 350 MHz; one more pixel per second switches to the user setting. */
  lemma LoweredLoad(user: int) returns (ps: seq<Param>, p: Param)
    requires user < 350
    ensures ps != [] && AllKnown(ps) && Known(p) && Sum(ps).total + Pixels(p) <= MAX_PIXELS
    ensures Choose(ps, user) == Request(350) && Choose(ps + [p], user) == Request(user)
  {
    ps, p := [FULL_HD], ONE_PIXEL;
    hide Choose, Match, Sum, Pixels, LevelFreq;
    BorderSums();
    KnownChoice(ps, user);
    KnownChoice(ps + [p], user);
    LevelBorder(user);
  }

  lemma LevelBorder(user: int)
    ensures LevelFreq(H264, user, LEVEL3) == 350 && LevelFreq(H264, user, LEVEL3 + 1) == user
  {
  }

  lemma BorderSums()
    ensures var ps := [FULL_HD];
      && Pixels(ONE_PIXEL) == 1
      && Sum(ps) == Tally(LEVEL3, 1, 0, false, H264, H264)
      && Sum(ps + [ONE_PIXEL]) == Tally(LEVEL3 + 1, 2, 0, false, H264, H264)
  {
    assert Pixels(FULL_HD) == LEVEL3 && Pixels(ONE_PIXEL) == 1;
    hide Sum, Pixels;
    SumAppend([], FULL_HD);
    assert [] + [FULL_HD] == [FULL_HD];
    SumNothing();
    SumAppend([FULL_HD], ONE_PIXEL);
  }

  lemma SumNothing()
    ensures Sum([]) == NOTHING
  {
  }

  // ----- the request in terms of the slots

  /** The frame rate that counts: the given one when it is positive, and 60 otherwise. */
  function Rate(p: Param): int {
    if p.frameRate > 0 then p.frameRate else 60
  }

  /** ps is the loads of the slots at these increasing positions, with that frame rate. */
  ghost predicate LoadsAre(ss: seq<Slot>, ps: seq<Param>, at: seq<nat>) {
    && |at| == |ps|
    && (forall i :: 0 <= i < |at| ==> at[i] < |ss| && ps[i] == ss[at[i]].param.(frameRate := Rate(ss[at[i]].param)))
    && (forall i, j :: 0 <= i < j < |at| ==> at[i] < at[j])
  }

  /** The tallied loads are those of the used slots, in slot order. */
  lemma {:induction false} UsedLoadsExact(ss: seq<Slot>) returns (at: seq<nat>)
    ensures LoadsAre(ss, UsedLoads(ss), at)
    ensures forall k :: 0 <= k < |ss| ==> (k in at <==> ss[k].used == 1)
  {
    if ss == [] {
      at := [];
    } else {
      hide UsedLoads, Normal, Rate, LoadsAre;
      var n := |ss| - 1;
      LastLoad(ss);
      var rest := UsedLoadsExact(ss[..n]);
      OneMoreSlot(ss, UsedLoads(ss[..n]), rest);
      at := if ss[n].used == 1 then rest + [n] else rest;
      forall k | 0 <= k < |ss|
        ensures k in at <==> ss[k].used == 1
      {
        assert k < n ==> ss[..n][k] == ss[k];
      }
    }
  }

  lemma OneMoreSlot(ss: seq<Slot>, ps: seq<Param>, at: seq<nat>)
    requires ss != [] && LoadsAre(ss[..|ss| - 1], ps, at)
    ensures LoadsAre(ss, ps + [], at) && LoadsAre(ss, ps + [Normal(ss[|ss| - 1].param)], at + [|ss| - 1])
    ensures |ss| - 1 !in at
  {
    var n := |ss| - 1;
    RateIsNormal(ss[n].param);
    hide Normal, Rate;
    assert ps + [] == ps;
    forall i | 0 <= i < |at|
      ensures at[i] < n && ps[i] == ss[at[i]].param.(frameRate := Rate(ss[at[i]].param))
    {
      assert ss[..n][at[i]] == ss[at[i]];
    }
  }

  lemma RateIsNormal(p: Param)
    ensures Normal(p) == p.(frameRate := Rate(p))
  {
  }

  /** The unbounded sum of width times height times frame rate. */
  function Load(ps: seq<Param>): int {
    if ps == [] then 0 else Load(ps[1..]) + ps[0].width * ps[0].height * ps[0].frameRate
  }

  lemma LoadLast(ps: seq<Param>, p: Param)
    ensures Load(ps + [p]) == Load(ps) + p.width * p.height * p.frameRate
  {
    if ps == [] {
      assert [] + [p] == [p] && [p][1..] == [];
    } else {
      assert (ps + [p])[1..] == ps[1..] + [p];
      LoadLast(ps[1..], p);
    }
  }

  /** The total is that sum in unsigned 32-bit arithmetic. */
  lemma {:induction false} TotalIsLoad(ps: seq<Param>)
    ensures Sum(ps).total == Load(ps) % 0x1_0000_0000
  {
    if ps != [] {
      var n := |ps| - 1;
      assert ps == ps[..n] + [ps[n]];
      TotalIsLoad(ps[..n]);
      LoadLast(ps[..n], ps[n]);
      TotalStep(Sum(ps[..n]), ps[n], Load(ps[..n]));
    }
  }

  lemma TotalStep(a: Tally, p: Param, x: int)
    requires a.total == x % UINT
    ensures Add(a, p).total == (x + p.width * p.height * p.frameRate) % UINT
  {
    var y := p.width * p.height * p.frameRate;
    WrapBoth(x, y);
  }

  lemma WrapBoth(x: int, y: int)
    ensures (x % UINT + y % UINT) % UINT == (x + y) % UINT
  {
  }

  /**
   What is requested for one or two decoders of one codec with rows, by the numbers of the table and the sum of
   their loads; anything else that is known gives the user setting.
   */
  lemma RequestExact(ps: seq<Param>, user: int)
    requires ps != [] && 0 <= Load(ps) <= 1_990_656_000
    requires forall i :: 0 <= i < |ps| ==> 2 <= ps[i].codec <= 5 || ps[i].codec >= 0x100
    ensures var one := |ps| <= 2 && ps[0].codec < 0x100 && ps[|ps| - 1].codec == ps[0].codec;
      Choose(ps, user) == Request(if one then LevelFreq(ps[0].codec, user, Load(ps)) else user)
  {
    hide Sum, Match, LevelFreq, Choose, Load;
    TotalIsLoad(ps);
    if e :| e in ps && !Decoder(e) {
      CrowdUsesUser(ps, user);
      if |ps| <= 2 {
        assert e == ps[0] || e == ps[|ps| - 1];
      }
    } else {
      assert forall i :: 0 <= i < |ps| ==> ps[i] in ps;
      TabledSum(ps);
      LastCodec(ps);
      if |ps| > 2 {
        CrowdUsesUser(ps, user);
      } else {
        ShortMixed(ps);
        SumCounts(ps);
        SameTable(ps, user);
      }
    }
  }

  lemma SameTable(ps: seq<Param>, user: int)
    requires ps != [] && AllTabled(ps) && |ps| <= 2 && Sum(ps).total == Load(ps) <= 1_990_656_000
    requires Sum(ps).last == ps[|ps| - 1].codec && Sum(ps).encoders == 0 && Sum(ps).decoders == |ps|
    requires Sum(ps).mixed <==> ps[|ps| - 1].codec != ps[0].codec
    ensures Choose(ps, user) ==
      Request(if ps[|ps| - 1].codec == ps[0].codec then LevelFreq(ps[0].codec, user, Load(ps)) else user)
  {
    hide Sum, Match, LevelFreq, Load;
    LevelOf(Sum(ps).last, user, Sum(ps).total);
  }

  lemma LastCodec(ps: seq<Param>)
    requires ps != []
    ensures Sum(ps).last == ps[|ps| - 1].codec
  {
    hide Pixels;
  }

  lemma ShortMixed(ps: seq<Param>)
    requires 0 < |ps| <= 2 && AllTabled(ps)
    ensures Sum(ps).mixed <==> ps[|ps| - 1].codec != ps[0].codec
  {
    hide Pixels;
    if |ps| == 1 {
      SumAppend([], ps[0]);
      assert [] + [ps[0]] == ps;
    } else {
      SumAppend([], ps[0]);
      assert [] + [ps[0]] == [ps[0]];
      SumAppend([ps[0]], ps[1]);
      assert [ps[0]] + [ps[1]] == ps;
    }
  }

  /** One used slot: the request that `Adjust` makes, in terms of its fields. */
  lemma OneLoadRequest(ss: seq<Slot>, i: nat, user: int)
    requires i < |ss| && forall k :: 0 <= k < |ss| ==> (ss[k].used == 1 <==> k == i)
    requires var p := ss[i].param; 2 <= p.codec <= 5 && 0 <= p.width * p.height * Rate(p) <= 1_990_656_000
    ensures var p := ss[i].param;
      Choose(UsedLoads(ss), user) == Request(LevelFreq(p.codec, user, p.width * p.height * Rate(p)))
  {
    hide UsedLoads, Choose, LevelFreq;
    var at := UsedLoadsExact(ss);
    assert i in at;
    assert forall j :: 0 <= j < |at| ==> at[j] in at && at[j] == i;
    assert at[0] == at[|at| - 1] == i;
    var ps := UsedLoads(ss);
    assert ps == [ps[0]];
    OneLoad(ps[0]);
    RequestExact(ps, user);
  }

  lemma OneLoad(p: Param)
    ensures Load([p]) == p.width * p.height * p.frameRate
  {
    assert [p][1..] == [];
  }

  /** No row matches exactly for a codec without rows and for a total above the maximum. */
  lemma NoRowExact(codec: int, total: nat, user: int)
    ensures Match(codec, total, user, 0) == Keep <==> !(2 <= codec <= 5 && total <= 1_990_656_000)
  {
    hide Match;
    if 2 <= codec <= 5 && total <= 1_990_656_000 {
      LevelOf(codec, user, total);
    } else {
      NoMatch(codec, total, user, 0);
    }
  }

  /**
   Nothing is requested if and only if no slot is used, or one or two decoders, which the loop does not take for
   different codecs, have a codec without rows or a total above the maximum.
   */
  lemma KeepExact(ps: seq<Param>, user: int)
    ensures Choose(ps, user) == Keep <==>
      || ps == []
      || (&& |ps| <= 2 && (forall i :: 0 <= i < |ps| ==> ps[i].codec < 0x100)
          && (ps[0].codec == -1 || ps[0].codec == ps[|ps| - 1].codec)
          && !(2 <= ps[|ps| - 1].codec <= 5 && Load(ps) % 0x1_0000_0000 <= 1_990_656_000))
  {
    hide Match, Load, Pixels;
    if ps == [] {
      assert Choose([], user) == Keep;
    } else if |ps| > 2 || exists p :: p in ps && !Decoder(p) {
      hide Choose;
      CrowdUsesUser(ps, user);
    } else {
      hide Choose, Sum;
      assert forall i :: 0 <= i < |ps| ==> ps[i] in ps;
      TotalIsLoad(ps);
      ShortChoice(ps, user);
      NoRowExact(ps[|ps| - 1].codec, Sum(ps).total, user);
    }
  }

  lemma ShortChoice(ps: seq<Param>, user: int)
    requires 0 < |ps| <= 2 && forall i :: 0 <= i < |ps| ==> Decoder(ps[i])
    ensures Choose(ps, user) ==
      if ps[0].codec == -1 || ps[0].codec == ps[|ps| - 1].codec then Match(ps[|ps| - 1].codec, Sum(ps).total, user, 0)
      else Request(user)
  {
    hide Match, Pixels;
    SumAppend([], ps[0]);
    assert [] + [ps[0]] == [ps[0]];
    if |ps| == 1 {
      assert ps == [ps[0]];
    } else {
      SumAppend([ps[0]], ps[1]);
      assert [ps[0]] + [ps[1]] == ps;
    }
  }
}
