/**
 What diarisation error means, tick by tick, and its laws.  Times are exact
 integers in any unit; a segment is active in the ticks from its start up to,
 but not including, its end.
 */
module Diarisation {
  import opened Collections

  datatype Segment = Segment(speaker: string, start: int, end: int)

  predicate Valid(segments: seq<Segment>) {
    forall s :: s in segments ==> 0 <= s.start < s.end
  }

  function Speakers(segments: seq<Segment>): set<string> {
    set s | s in segments :: s.speaker
  }

  function Active(segments: seq<Segment>, t: int): set<string> {
    set s | s in segments && s.start <= t < s.end :: s.speaker
  }

  /** Everything measured; `Mapped` counts the speakers a mapping gets right. */
  datatype Quantity =
    | Spoken | Heard | Missed | FalseAlarm | Common
    | Overlap(reference: string, hypothesis: string)
    | Mapped(mapping: map<string, string>)

  function Max(a: int, b: int): int { if a < b then b else a }

  function Min(a: int, b: int): int { if a < b then a else b }

  /** The quantity in one tick, given who speaks in the reference and in the hypothesis. */
  function At(r: set<string>, h: set<string>, q: Quantity): int {
    match q
    case Spoken => |r|
    case Heard => |h|
    case Missed => Max(0, |r| - |h|)
    case FalseAlarm => Max(0, |h| - |r|)
    case Common => Min(|r|, |h|)
    case Overlap(a, b) => if a in r && b in h then 1 else 0
    case Mapped(m) => |Right(r, h, m)|
  }

  function Right(r: set<string>, h: set<string>, mapping: map<string, string>): set<string> {
    set a | a in mapping && a in r && mapping[a] in h
  }

  ghost function Total(reference: seq<Segment>, hypothesis: seq<Segment>, lo: int, hi: int, q: Quantity): int
    decreases hi - lo
  {
    if hi <= lo then 0
    else Total(reference, hypothesis, lo, hi - 1, q) + At(Active(reference, hi - 1), Active(hypothesis, hi - 1), q)
  }

  // ----- Additivity over time

  lemma {:induction false} TotalSplits(reference: seq<Segment>, hypothesis: seq<Segment>, lo: int, mid: int, hi: int, q: Quantity)
    requires lo <= mid <= hi
    ensures Total(reference, hypothesis, lo, hi, q)
            == Total(reference, hypothesis, lo, mid, q) + Total(reference, hypothesis, mid, hi, q)
    decreases hi - mid
  {
    if mid < hi {
      TotalSplits(reference, hypothesis, lo, mid, hi - 1, q);
    }
  }

  lemma {:induction false} TotalConstant(reference: seq<Segment>, hypothesis: seq<Segment>, lo: int, hi: int, q: Quantity,
                                         r: set<string>, h: set<string>)
    requires lo <= hi
    requires forall t :: lo <= t < hi ==> Active(reference, t) == r && Active(hypothesis, t) == h
    ensures Total(reference, hypothesis, lo, hi, q) == (hi - lo) * At(r, h, q)
    decreases hi - lo
  {
    if lo < hi {
      TotalConstant(reference, hypothesis, lo, hi - 1, q, r, h);
      assert (hi - lo) * At(r, h, q) == (hi - 1 - lo) * At(r, h, q) + At(r, h, q);
    }
  }

  /** All segments lie between `lo` and `hi`. */
  predicate Spans(segments: seq<Segment>, lo: int, hi: int) {
    forall s :: s in segments ==> lo <= s.start && s.end <= hi
  }

  lemma SilentOutside(reference: seq<Segment>, hypothesis: seq<Segment>, lo: int, hi: int, from: int, to: int, q: Quantity)
    requires Spans(reference + hypothesis, lo, hi) && from <= to && (to <= lo || hi <= from)
    ensures Total(reference, hypothesis, from, to, q) == 0
  {
    forall t | from <= t < to ensures Active(reference, t) == {} && Active(hypothesis, t) == {} {
      forall s | s in reference + hypothesis ensures !(s.start <= t < s.end) {
      }
      assert forall s :: s in reference || s in hypothesis ==> s in reference + hypothesis;
    }
    TotalConstant(reference, hypothesis, from, to, q, {}, {});
    assert Right({}, {}, if q.Mapped? then q.mapping else map[]) == {};
  }

  /** Totals do not depend on the window, once it holds every segment. */
  lemma TotalOfAnySpan(reference: seq<Segment>, hypothesis: seq<Segment>, lo: int, hi: int, from: int, to: int, q: Quantity)
    requires lo <= hi && from <= to && Spans(reference + hypothesis, lo, hi) && Spans(reference + hypothesis, from, to)
    ensures Total(reference, hypothesis, lo, hi, q) == Total(reference, hypothesis, from, to, q)
  {
    var first, last := Min(lo, from), Max(hi, to);
    SilentOutside(reference, hypothesis, lo, hi, first, lo, q);
    SilentOutside(reference, hypothesis, lo, hi, hi, last, q);
    SilentOutside(reference, hypothesis, from, to, first, from, q);
    SilentOutside(reference, hypothesis, from, to, to, last, q);
    TotalSplits(reference, hypothesis, first, lo, last, q);
    TotalSplits(reference, hypothesis, lo, hi, last, q);
    TotalSplits(reference, hypothesis, first, from, last, q);
    TotalSplits(reference, hypothesis, from, to, last, q);
  }

  // ----- Accounting

  /** Missed and common time make up the reference, false and common time the hypothesis. */
  lemma {:induction false} Accounting(reference: seq<Segment>, hypothesis: seq<Segment>, lo: int, hi: int)
    ensures Total(reference, hypothesis, lo, hi, Missed) + Total(reference, hypothesis, lo, hi, Common)
            == Total(reference, hypothesis, lo, hi, Spoken)
    ensures Total(reference, hypothesis, lo, hi, FalseAlarm) + Total(reference, hypothesis, lo, hi, Common)
            == Total(reference, hypothesis, lo, hi, Heard)
    decreases hi - lo
  {
    if lo < hi {
      Accounting(reference, hypothesis, lo, hi - 1);
    }
  }

  /** The ticks of one speaker: the union of the speaker's segments. */
  ghost function Ticks(segments: seq<Segment>, speaker: string, lo: int, hi: int): set<int> {
    set t | lo <= t < hi && speaker in Active(segments, t)
  }

  ghost function SumTicks(segments: seq<Segment>, speakers: seq<string>, lo: int, hi: int): int {
    if speakers == [] then 0
    else SumTicks(segments, speakers[..|speakers| - 1], lo, hi) + |Ticks(segments, speakers[|speakers| - 1], lo, hi)|
  }

  ghost predicate Lists(speakers: seq<string>, s: set<string>) {
    && (forall x :: x in speakers <==> x in s)
    && (forall i, j :: 0 <= i < j < |speakers| ==> speakers[i] != speakers[j])
  }

  function Among(speakers: seq<string>, now: set<string>): set<string> {
    set x | x in speakers && x in now
  }

  lemma TicksGrow(segments: seq<Segment>, speaker: string, lo: int, hi: int)
    requires lo < hi
    ensures |Ticks(segments, speaker, lo, hi)|
            == |Ticks(segments, speaker, lo, hi - 1)| + (if speaker in Active(segments, hi - 1) then 1 else 0)
  {
    assert Ticks(segments, speaker, lo, hi)
        == Ticks(segments, speaker, lo, hi - 1) + (if speaker in Active(segments, hi - 1) then {hi - 1} else {});
  }

  lemma AmongGrow(front: seq<string>, x: string, now: set<string>)
    requires x !in front
    ensures |Among(front + [x], now)| == |Among(front, now)| + (if x in now then 1 else 0)
  {
    assert Among(front + [x], now) == Among(front, now) + (if x in now then {x} else {});
  }

  lemma {:induction false} LastTick(segments: seq<Segment>, speakers: seq<string>, lo: int, hi: int)
    requires lo < hi && forall i, j :: 0 <= i < j < |speakers| ==> speakers[i] != speakers[j]
    ensures SumTicks(segments, speakers, lo, hi)
            == SumTicks(segments, speakers, lo, hi - 1) + |Among(speakers, Active(segments, hi - 1))|
  {
    hide Ticks, Active, Among;
    if speakers == [] {
      NoneAmong(Active(segments, hi - 1));
    } else {
      var front, x := speakers[..|speakers| - 1], speakers[|speakers| - 1];
      LastTick(segments, front, lo, hi);
      assert speakers == front + [x] && x !in front;
      AmongGrow(front, x, Active(segments, hi - 1));
      TicksGrow(segments, x, lo, hi);
    }
  }

  lemma NoneAmong(now: set<string>)
    ensures Among([], now) == {}
  {
  }

  lemma {:induction false} NoTicks(segments: seq<Segment>, speakers: seq<string>, lo: int, hi: int)
    requires hi <= lo
    ensures SumTicks(segments, speakers, lo, hi) == 0
  {
    if speakers != [] {
      NoTicks(segments, speakers[..|speakers| - 1], lo, hi);
      assert Ticks(segments, speakers[|speakers| - 1], lo, hi) == {};
    }
  }

  /** The denominator is the summed length of each speaker's union of segments. */
  lemma {:induction false} SpokenIsUnionLength(reference: seq<Segment>, hypothesis: seq<Segment>, speakers: seq<string>, lo: int, hi: int)
    requires Lists(speakers, Speakers(reference))
    ensures Total(reference, hypothesis, lo, hi, Spoken) == SumTicks(reference, speakers, lo, hi)
    decreases hi - lo
  {
    if lo < hi {
      SpokenIsUnionLength(reference, hypothesis, speakers, lo, hi - 1);
      LastTick(reference, speakers, lo, hi);
      assert Among(speakers, Active(reference, hi - 1)) == Active(reference, hi - 1);
    } else {
      NoTicks(reference, speakers, lo, hi);
    }
  }

  lemma {:induction false} HeardIsSpoken(reference: seq<Segment>, hypothesis: seq<Segment>, lo: int, hi: int)
    ensures Total(reference, hypothesis, lo, hi, Heard) == Total(hypothesis, reference, lo, hi, Spoken)
    decreases hi - lo
  {
    if lo < hi {
      HeardIsSpoken(reference, hypothesis, lo, hi - 1);
    }
  }

  // ----- Mappings

  predicate OneToOne(mapping: map<string, string>) {
    forall a, b :: a in mapping && b in mapping && mapping[a] == mapping[b] ==> a == b
  }

  /** One-to-one from reference speakers to hypothesis speakers. */
  ghost predicate Maps(reference: seq<Segment>, hypothesis: seq<Segment>, mapping: map<string, string>) {
    OneToOne(mapping) && forall a :: a in mapping ==> a in Speakers(reference) && mapping[a] in Speakers(hypothesis)
  }

  function Image(s: set<string>, f: map<string, string>): set<string> {
    set a | a in s && a in f :: f[a]
  }

  lemma {:induction false} ImageCard(s: set<string>, f: map<string, string>)
    requires OneToOne(f) && s <= f.Keys
    ensures |Image(s, f)| == |s|
  {
    if x :| x in s {
      ImageCard(s - {x}, f);
      assert Image(s, f) == Image(s - {x}, f) + {f[x]};
      assert f[x] !in Image(s - {x}, f);
    }
  }

  /** In no tick can a one-to-one mapping be right for more speakers than both sides have. */
  lemma RightAtMostCommon(r: set<string>, h: set<string>, mapping: map<string, string>)
    requires OneToOne(mapping)
    ensures At(r, h, Mapped(mapping)) <= At(r, h, Common)
  {
    var right := Right(r, h, mapping);
    SubsetSize(right, r);
    ImageCard(right, mapping);
    SubsetSize(Image(right, mapping), h);
  }

  lemma {:induction false} MappedAtMostCommon(reference: seq<Segment>, hypothesis: seq<Segment>, lo: int, hi: int, mapping: map<string, string>)
    requires OneToOne(mapping)
    ensures Total(reference, hypothesis, lo, hi, Mapped(mapping)) <= Total(reference, hypothesis, lo, hi, Common)
    decreases hi - lo
  {
    if lo < hi {
      MappedAtMostCommon(reference, hypothesis, lo, hi - 1, mapping);
      RightAtMostCommon(Active(reference, hi - 1), Active(hypothesis, hi - 1), mapping);
    }
  }

  /** `best` is the most any one-to-one mapping of speakers gets right. */
  ghost predicate IsBest(reference: seq<Segment>, hypothesis: seq<Segment>, lo: int, hi: int, best: int) {
    && (exists m :: Maps(reference, hypothesis, m) && Total(reference, hypothesis, lo, hi, Mapped(m)) == best)
    && (forall m :: Maps(reference, hypothesis, m) ==> Total(reference, hypothesis, lo, hi, Mapped(m)) <= best)
  }

  // ----- Renaming the hypothesis

  function Rename(segments: seq<Segment>, names: map<string, string>): seq<Segment>
    requires Speakers(segments) <= names.Keys
  {
    seq(|segments|, i requires 0 <= i < |segments| =>
      assert segments[i].speaker in Speakers(segments);
      segments[i].(speaker := names[segments[i].speaker]))
  }

  lemma RenamedActive(segments: seq<Segment>, names: map<string, string>, t: int)
    requires OneToOne(names) && Speakers(segments) <= names.Keys
    ensures Active(Rename(segments, names), t) == Image(Active(segments, t), names)
    ensures |Active(Rename(segments, names), t)| == |Active(segments, t)|
  {
    var renamed := Rename(segments, names);
    forall x | x in Active(renamed, t) ensures x in Image(Active(segments, t), names) {
      var s :| s in renamed && s.start <= t < s.end && s.speaker == x;
      var i :| 0 <= i < |renamed| && renamed[i] == s;
      assert segments[i] in segments && segments[i].speaker in Active(segments, t);
    }
    forall x | x in Image(Active(segments, t), names) ensures x in Active(renamed, t) {
      var a :| a in Active(segments, t) && names[a] == x;
      var s :| s in segments && s.start <= t < s.end && s.speaker == a;
      var i :| 0 <= i < |segments| && segments[i] == s;
      assert renamed[i] in renamed && renamed[i].speaker == x;
    }
    assert Active(segments, t) <= Speakers(segments);
    ImageCard(Active(segments, t), names);
  }

  lemma RenamedSpeakers(segments: seq<Segment>, names: map<string, string>)
    requires Speakers(segments) <= names.Keys
    ensures Speakers(Rename(segments, names)) == Image(Speakers(segments), names)
  {
    var renamed := Rename(segments, names);
    forall x | x in Speakers(renamed) ensures x in Image(Speakers(segments), names) {
      var s :| s in renamed && s.speaker == x;
      var i :| 0 <= i < |renamed| && renamed[i] == s;
      assert segments[i].speaker in Speakers(segments);
    }
    forall x | x in Image(Speakers(segments), names) ensures x in Speakers(renamed) {
      var a :| a in Speakers(segments) && names[a] == x;
      var s :| s in segments && s.speaker == a;
      var i :| 0 <= i < |segments| && segments[i] == s;
      assert renamed[i] in renamed;
    }
  }

  /** The mapping that follows `mapping` and then the renaming. */
  function Follow(mapping: map<string, string>, names: map<string, string>): map<string, string> {
    map a | a in mapping && mapping[a] in names :: names[mapping[a]]
  }

  function Renamed(q: Quantity, names: map<string, string>): Quantity {
    if q.Mapped? then Mapped(Follow(q.mapping, names)) else q
  }

  lemma RenamedTick(r: set<string>, h: set<string>, names: map<string, string>, q: Quantity)
    requires OneToOne(names) && h <= names.Keys && !q.Overlap?
    requires q.Mapped? ==> forall a :: a in q.mapping ==> q.mapping[a] in names
    ensures At(r, Image(h, names), Renamed(q, names)) == At(r, h, q)
  {
    ImageCard(h, names);
    if q.Mapped? {
      forall a | a in q.mapping ensures names[q.mapping[a]] in Image(h, names) <==> q.mapping[a] in h {
      }
      assert Right(r, Image(h, names), Follow(q.mapping, names)) == Right(r, h, q.mapping);
    }
  }

  lemma {:induction false} RenamedTotal(reference: seq<Segment>, hypothesis: seq<Segment>, names: map<string, string>, lo: int, hi: int, q: Quantity)
    requires OneToOne(names) && Speakers(hypothesis) <= names.Keys && !q.Overlap?
    requires q.Mapped? ==> forall a :: a in q.mapping ==> q.mapping[a] in names
    ensures Total(reference, Rename(hypothesis, names), lo, hi, Renamed(q, names)) == Total(reference, hypothesis, lo, hi, q)
    decreases hi - lo
  {
    if lo < hi {
      RenamedTotal(reference, hypothesis, names, lo, hi - 1, q);
      RenamedActive(hypothesis, names, hi - 1);
      assert Active(hypothesis, hi - 1) <= Speakers(hypothesis);
      RenamedTick(Active(reference, hi - 1), Active(hypothesis, hi - 1), names, q);
    }
  }

  /** A mapping onto renamed speakers comes from one onto the speakers themselves. */
  lemma Unfollow(reference: seq<Segment>, hypothesis: seq<Segment>, names: map<string, string>, m: map<string, string>)
    returns (back: map<string, string>)
    requires OneToOne(names) && Speakers(hypothesis) <= names.Keys && Maps(reference, Rename(hypothesis, names), m)
    ensures Maps(reference, hypothesis, back) && Follow(back, names) == m
  {
    RenamedSpeakers(hypothesis, names);
    forall a | a in m ensures exists b :: b in Speakers(hypothesis) && names[b] == m[a] {
    }
    back := map a | a in m :: (var b :| b in Speakers(hypothesis) && names[b] == m[a]; b);
  }

  lemma FollowMaps(reference: seq<Segment>, hypothesis: seq<Segment>, names: map<string, string>, m: map<string, string>)
    requires OneToOne(names) && Speakers(hypothesis) <= names.Keys && Maps(reference, hypothesis, m)
    ensures Maps(reference, Rename(hypothesis, names), Follow(m, names))
  {
    RenamedSpeakers(hypothesis, names);
  }

  /** The best mapping gets exactly as much right after the hypothesis speakers are renamed. */
  lemma BestIsRenamed(reference: seq<Segment>, hypothesis: seq<Segment>, names: map<string, string>, lo: int, hi: int, best: int)
    requires OneToOne(names) && Speakers(hypothesis) <= names.Keys && IsBest(reference, hypothesis, lo, hi, best)
    ensures IsBest(reference, Rename(hypothesis, names), lo, hi, best)
  {
    hide Total, Maps;
    var m :| Maps(reference, hypothesis, m) && Total(reference, hypothesis, lo, hi, Mapped(m)) == best;
    MapsInto(reference, hypothesis, names, m);
    RenamedTotal(reference, hypothesis, names, lo, hi, Mapped(m));
    FollowMaps(reference, hypothesis, names, m);
    forall other | Maps(reference, Rename(hypothesis, names), other)
      ensures Total(reference, Rename(hypothesis, names), lo, hi, Mapped(other)) <= best
    {
      var back := Unfollow(reference, hypothesis, names, other);
      MapsInto(reference, hypothesis, names, back);
      RenamedTotal(reference, hypothesis, names, lo, hi, Mapped(back));
    }
  }

  lemma MapsInto(reference: seq<Segment>, hypothesis: seq<Segment>, names: map<string, string>, m: map<string, string>)
    requires Maps(reference, hypothesis, m) && Speakers(hypothesis) <= names.Keys
    ensures OneToOne(m) && forall a :: a in m ==> m[a] in names
  {
  }

  // ----- A hypothesis that is the reference under other names

  lemma {:induction false} PerfectTotals(reference: seq<Segment>, names: map<string, string>, lo: int, hi: int)
    requires OneToOne(names) && Speakers(reference) <= names.Keys
    ensures Total(reference, Rename(reference, names), lo, hi, Missed) == 0
    ensures Total(reference, Rename(reference, names), lo, hi, FalseAlarm) == 0
    ensures Total(reference, Rename(reference, names), lo, hi, Mapped(OnlySpeakers(reference, names)))
            == Total(reference, Rename(reference, names), lo, hi, Common)
    decreases hi - lo
  {
    if lo < hi {
      PerfectTotals(reference, names, lo, hi - 1);
      RenamedActive(reference, names, hi - 1);
      var r := Active(reference, hi - 1);
      assert r <= Speakers(reference);
      assert Right(r, Image(r, names), OnlySpeakers(reference, names)) == r;
    }
  }

  function OnlySpeakers(segments: seq<Segment>, names: map<string, string>): map<string, string> {
    map a | a in names && a in Speakers(segments) :: names[a]
  }

  /** Then the best mapping gets all the common time right. */
  lemma PerfectBest(reference: seq<Segment>, names: map<string, string>, lo: int, hi: int, best: int)
    requires OneToOne(names) && Speakers(reference) <= names.Keys && IsBest(reference, Rename(reference, names), lo, hi, best)
    ensures best == Total(reference, Rename(reference, names), lo, hi, Common)
  {
    PerfectTotals(reference, names, lo, hi);
    RenamedSpeakers(reference, names);
    assert Maps(reference, Rename(reference, names), OnlySpeakers(reference, names));
    var m :| Maps(reference, Rename(reference, names), m) && Total(reference, Rename(reference, names), lo, hi, Mapped(m)) == best;
    MappedAtMostCommon(reference, Rename(reference, names), lo, hi, m);
  }
}
