/** The second half of `merge_transcriptions`: relabelling through the
    speaker mapping and the user's labels, the second sort, and the single
    left-to-right pass that merges neighbouring entries of one speaker. */
module Merge {
  import opened Wrappers
  import opened Text
  import opened Records
  import opened Sorting
  import opened SpeakerMap
  import opened Windower

  /** Two entries of one speaker merge when the next one starts less than
      this many milliseconds after the current one ends. */
  const GapThreshold: int := 2000

  /** `speaker_labels.get(id, f"Speaker {id}")`. */
  function Display(labels: map<string, string>, id: string): string {
    if id in labels then labels[id] else "Speaker " + id
  }

  /** One entry after `speaker_mapping.get(...)` and the label lookup. */
  function Relabel(e: Entry, m: Mapping, labels: map<string, string>): Entry {
    var mapped := if (e.segmentIndex, e.speaker) in m then m[(e.segmentIndex, e.speaker)] else e.speaker;
    e.(speaker := Display(labels, mapped))
  }

  function ApplyLabels(es: seq<Entry>, m: Mapping, labels: map<string, string>): (r: seq<Entry>)
    ensures |r| == |es|
    ensures forall j :: 0 <= j < |r| ==> r[j] == Relabel(es[j], m, labels)
  {
    seq(|es|, j requires 0 <= j < |es| => Relabel(es[j], m, labels))
  }

  /** Relabelling touches only speakers, so a start-sorted list stays sorted
      and the second `sort` changes nothing. */
  lemma {:induction false} SecondSortIsIdentity(es: seq<Entry>, m: Mapping, labels: map<string, string>)
    requires SortedBy(es, EntryStart)
    ensures SortBy(ApplyLabels(es, m, labels), EntryStart) == ApplyLabels(es, m, labels)
  {
    var r := ApplyLabels(es, m, labels);
    assert forall j :: 0 <= j < |r| ==> EntryStart(r[j]) == EntryStart(es[j]);
    assert SortedBy(r, EntryStart);
    SortSortedIsIdentity(r, EntryStart);
  }

  predicate Absorbs(acc: Entry, e: Entry) {
    e.speaker == acc.speaker && e.start - acc.end < GapThreshold
  }

  /** The current entry takes the next one's text after a space and its end
      time, whether or not that end is later. */
  function Absorb(acc: Entry, e: Entry): Entry {
    acc.(text := acc.text + " " + e.text, end := e.end)
  }

  /** The merge loop with `acc` as `current_entry` and `rest` still to come. */
  function MergeFrom(acc: Entry, rest: seq<Entry>): (r: seq<Entry>)
    ensures 1 <= |r| <= 1 + |rest|
    ensures r[0].speaker == acc.speaker && r[0].start == acc.start && r[0].segmentIndex == acc.segmentIndex
    decreases |rest|
  {
    if rest == [] then [acc]
    else if Absorbs(acc, rest[0]) then MergeFrom(Absorb(acc, rest[0]), rest[1..])
    else [acc] + MergeFrom(rest[0], rest[1..])
  }

  function MergeAdjacent(es: seq<Entry>): (r: seq<Entry>)
    ensures |r| <= |es|
    ensures r == [] <==> es == []
  {
    if es == [] then [] else MergeFrom(es[0], es[1..])
  }

  /** No entry would absorb its successor. */
  predicate Settled(es: seq<Entry>) {
    forall k :: 0 <= k < |es| - 1 ==> !Absorbs(es[k], es[k + 1])
  }

  /** After the pass no two neighbours of one speaker are closer than the
      threshold. */
  lemma {:induction false} MergeFromSettled(acc: Entry, rest: seq<Entry>)
    ensures Settled(MergeFrom(acc, rest))
    decreases |rest|
  {
    if rest != [] {
      if Absorbs(acc, rest[0]) {
        MergeFromSettled(Absorb(acc, rest[0]), rest[1..]);
      } else {
        var t := MergeFrom(rest[0], rest[1..]);
        MergeFromSettled(rest[0], rest[1..]);
        var r := [acc] + t;
        assert MergeFrom(acc, rest) == r;
        forall k | 0 <= k < |r| - 1 ensures !Absorbs(r[k], r[k + 1]) {
          if k > 0 {
            assert r[k] == t[k - 1] && r[k + 1] == t[k];
          }
        }
      }
    }
  }

  /** A settled list passes through unchanged. */
  lemma {:induction false} MergeFromOfSettled(acc: Entry, rest: seq<Entry>)
    requires Settled([acc] + rest)
    ensures MergeFrom(acc, rest) == [acc] + rest
    decreases |rest|
  {
    if rest != [] {
      var all := [acc] + rest;
      assert all[0] == acc && all[1] == rest[0];
      assert Settled([rest[0]] + rest[1..]) by {
        assert [rest[0]] + rest[1..] == rest;
        forall k | 0 <= k < |rest| - 1 ensures !Absorbs(rest[k], rest[k + 1]) {
          assert all[k + 1] == rest[k] && all[k + 2] == rest[k + 1];
        }
      }
      MergeFromOfSettled(rest[0], rest[1..]);
      assert [rest[0]] + rest[1..] == rest;
    }
  }

  /** Running the merge pass a second time changes nothing. */
  lemma {:induction false} MergeAdjacentIdempotent(es: seq<Entry>)
    ensures Settled(MergeAdjacent(es))
    ensures MergeAdjacent(MergeAdjacent(es)) == MergeAdjacent(es)
  {
    var r := MergeAdjacent(es);
    if es != [] {
      MergeFromSettled(es[0], es[1..]);
      assert r == [r[0]] + r[1..];
      MergeFromOfSettled(r[0], r[1..]);
    }
  }

  function Texts(es: seq<Entry>): (r: seq<string>)
    ensures |r| == |es|
  {
    if es == [] then [] else [es[0].text] + Texts(es[1..])
  }

  lemma {:induction false} JoinCons(x: string, xs: seq<string>)
    requires xs != []
    ensures Join([x] + xs, " ") == x + " " + Join(xs, " ")
  {
    assert ([x] + xs)[1..] == xs;
  }

  /** Merging never loses or reorders words: the space-joined text of the
      output is the space-joined text of the input. */
  lemma {:induction false} MergeFromText(acc: Entry, rest: seq<Entry>)
    ensures Join(Texts(MergeFrom(acc, rest)), " ") == Join(Texts([acc] + rest), " ")
    decreases |rest|
  {
    assert ([acc] + rest)[1..] == rest;
    if rest != [] {
      var e := rest[0];
      var tail := rest[1..];
      JoinCons(acc.text, Texts(rest));
      if Absorbs(acc, e) {
        var acc' := Absorb(acc, e);
        MergeFromText(acc', tail);
        assert ([acc'] + tail)[1..] == tail;
        if tail == [] {
          assert Texts(rest) == [e.text];
        } else {
          JoinCons(acc'.text, Texts(tail));
          JoinCons(e.text, Texts(tail));
          assert rest == [e] + tail;
          assert ([e] + tail)[1..] == tail;
        }
      } else {
        var t := MergeFrom(e, tail);
        MergeFromText(e, tail);
        assert MergeFrom(acc, rest) == [acc] + t;
        assert ([acc] + t)[1..] == t;
        JoinCons(acc.text, Texts(t));
        assert [e] + tail == rest;
      }
    }
  }

  // ---------------------------------------------------------------------
  // The merge pass as a cut into blocks

  /** The entry an accumulator becomes after absorbing `b` in order. */
  function AbsorbAll(acc: Entry, b: seq<Entry>): (r: Entry)
    ensures r.speaker == acc.speaker && r.start == acc.start && r.segmentIndex == acc.segmentIndex
    ensures r.end == if b == [] then acc.end else b[|b| - 1].end
    decreases |b|
  {
    if b == [] then acc else AbsorbAll(Absorb(acc, b[0]), b[1..])
  }

  /** Each entry of `b` is absorbed by the accumulator built from the ones
      before it: same speaker, and starting less than the threshold after the
      accumulator's end. */
  predicate Chain(acc: Entry, b: seq<Entry>)
    decreases |b|
  {
    b == [] || (Absorbs(acc, b[0]) && Chain(Absorb(acc, b[0]), b[1..]))
  }

  function Concat(bs: seq<seq<Entry>>): seq<Entry>
    decreases |bs|
  {
    if bs == [] then [] else bs[0] + Concat(bs[1..])
  }

  /** `bs` cuts `es` into non-empty blocks, and `r` holds one merged entry
      per block: each block is its head absorbing the rest in turn, and no
      block's head would have been absorbed by the entry before it. */
  predicate Blocks(es: seq<Entry>, bs: seq<seq<Entry>>, r: seq<Entry>) {
    && Concat(bs) == es
    && |bs| == |r|
    && (forall k :: 0 <= k < |bs| ==>
         bs[k] != [] && Chain(bs[k][0], bs[k][1..]) && r[k] == AbsorbAll(bs[k][0], bs[k][1..]))
    && (forall k :: 0 < k < |bs| ==> !Absorbs(r[k - 1], bs[k][0]))
  }

  /** Every entry of a chain has the head's speaker. */
  lemma {:induction false} ChainSpeaker(acc: Entry, b: seq<Entry>, i: nat)
    requires Chain(acc, b) && i < |b|
    ensures b[i].speaker == acc.speaker
    decreases |b|
  {
    if i > 0 {
      ChainSpeaker(Absorb(acc, b[0]), b[1..], i - 1);
      assert b[1..][i - 1] == b[i];
    }
  }

  /** The accumulated text is the space-joined text of the block. */
  lemma {:induction false} AbsorbAllText(acc: Entry, b: seq<Entry>)
    ensures AbsorbAll(acc, b).text == Join(Texts([acc] + b), " ")
    decreases |b|
  {
    TextsCons(acc, b);
    if b != [] {
      var e := b[0];
      var b1 := b[1..];
      var acc' := Absorb(acc, e);
      assert b == [e] + b1;
      AbsorbAllText(acc', b1);
      TextsCons(acc', b1);
      TextsCons(e, b1);
      JoinCons(acc.text, Texts(b));
      if b1 == [] {
        assert Texts(b) == [e.text];
      } else {
        var j1 := Join(Texts(b1), " ");
        JoinCons(acc'.text, Texts(b1));
        JoinCons(e.text, Texts(b1));
        assert Join(Texts(b), " ") == e.text + " " + j1;
        assert AbsorbAll(acc, b).text == acc'.text + " " + j1;
      }
    }
  }

  lemma {:induction false} TextsCons(x: Entry, xs: seq<Entry>)
    ensures Texts([x] + xs) == [x.text] + Texts(xs)
  {
    assert ([x] + xs)[1..] == xs;
  }

  /** The pass from `acc` cuts `[acc] + rest` into blocks whose merged
      entries are exactly its output. */
  lemma {:induction false} MergeFromBlocks(acc: Entry, rest: seq<Entry>) returns (bs: seq<seq<Entry>>)
    ensures Blocks([acc] + rest, bs, MergeFrom(acc, rest))
    ensures bs != [] && bs[0] != [] && bs[0][0] == acc
    decreases |rest|
  {
    var r := MergeFrom(acc, rest);
    if rest == [] {
      bs := [[acc]];
      assert Concat(bs) == [acc] + Concat([]);
      assert r == [acc];
    } else {
      var e := rest[0];
      var tail := rest[1..];
      assert rest == [e] + tail;
      if Absorbs(acc, e) {
        var acc' := Absorb(acc, e);
        var bs' := MergeFromBlocks(acc', tail);
        assert r == MergeFrom(acc', tail);
        var first := [acc, e] + bs'[0][1..];
        bs := [first] + bs'[1..];
        BlocksGrowHead(acc, e, tail, bs', bs, r);
      } else {
        var bs' := MergeFromBlocks(e, tail);
        var r' := MergeFrom(e, tail);
        assert r == [acc] + r';
        bs := [[acc]] + bs';
        BlocksNewHead(acc, rest, bs', bs, r', r);
      }
    }
  }

  /** An absorbed entry joins the first block. */
  lemma {:induction false} BlocksGrowHead(acc: Entry, e: Entry, tail: seq<Entry>,
                                          bs': seq<seq<Entry>>, bs: seq<seq<Entry>>, r: seq<Entry>)
    requires Absorbs(acc, e)
    requires Blocks([Absorb(acc, e)] + tail, bs', r)
    requires bs' != [] && bs'[0] != [] && bs'[0][0] == Absorb(acc, e)
    requires bs == [[acc, e] + bs'[0][1..]] + bs'[1..]
    ensures Blocks([acc, e] + tail, bs, r)
  {
    var acc' := Absorb(acc, e);
    var x := bs'[0][1..];
    assert bs'[0] == [acc'] + x;
    assert Concat(bs') == bs'[0] + Concat(bs'[1..]);
    assert bs[1..] == bs'[1..];
    assert Concat(bs) == bs[0] + Concat(bs'[1..]);
    assert [acc'] + tail == [acc'] + (x + Concat(bs'[1..]));
    assert ([acc'] + tail)[1..] == tail;
    assert ([acc'] + (x + Concat(bs'[1..])))[1..] == x + Concat(bs'[1..]);
    assert bs[0][1..] == [e] + x && ([e] + x)[1..] == x;
    assert Chain(acc, bs[0][1..]);
    assert AbsorbAll(acc, bs[0][1..]) == AbsorbAll(acc', x);
    forall k | 0 < k < |bs| ensures bs[k] == bs'[k] { }
  }

  /** A refused entry starts a new block. */
  lemma {:induction false} BlocksNewHead(acc: Entry, rest: seq<Entry>,
                                         bs': seq<seq<Entry>>, bs: seq<seq<Entry>>, r': seq<Entry>, r: seq<Entry>)
    requires rest != [] && !Absorbs(acc, rest[0])
    requires Blocks(rest, bs', r')
    requires bs' != [] && bs'[0] != [] && bs'[0][0] == rest[0]
    requires bs == [[acc]] + bs' && r == [acc] + r'
    ensures Blocks([acc] + rest, bs, r)
  {
    assert bs[1..] == bs';
    assert Concat(bs) == [acc] + Concat(bs');
    assert bs[0][1..] == [];
    forall k | 0 < k < |bs| ensures bs[k] == bs'[k - 1] && r[k] == r'[k - 1] { }
  }

  /** The merge pass, block by block: the input is cut into runs in which
      every entry is absorbed by the accumulator before it, each output entry
      is one run merged, and every cut is an entry the previous output entry
      would not absorb. Words therefore never change speaker. */
  lemma {:induction false} MergeAdjacentBlocks(es: seq<Entry>) returns (bs: seq<seq<Entry>>)
    ensures Blocks(es, bs, MergeAdjacent(es))
  {
    if es == [] {
      bs := [];
    } else {
      assert es == [es[0]] + es[1..];
      bs := MergeFromBlocks(es[0], es[1..]);
    }
  }

  /** A change of speaker always cuts, and a close entry of the same
      speaker is absorbed. */
  lemma {:induction false} SpeakerChangeCuts()
    ensures var a := Entry("a", "X", 0, 1000, 0);
      var b := Entry("b", "Y", 5000, 6000, 0);
      var c := Entry("c", "Y", 6500, 7000, 0);
      MergeAdjacent([a, b, c]) == [a, Entry("b c", "Y", 5000, 7000, 0)]
  {
    var a := Entry("a", "X", 0, 1000, 0);
    var b := Entry("b", "Y", 5000, 6000, 0);
    var c := Entry("c", "Y", 6500, 7000, 0);
    assert [a, b, c][1..] == [b, c] && [b, c][1..] == [c];
    assert MergeFrom(b, [c]) == MergeFrom(Absorb(b, c), []);
    assert Absorb(b, c) == Entry("b c", "Y", 5000, 7000, 0);
    assert MergeFrom(Absorb(b, c), []) == [Absorb(b, c)];
    assert MergeFrom(a, [b, c]) == [a] + MergeFrom(b, [c]);
    assert MergeAdjacent([a, b, c]) == MergeFrom(a, [b, c]);
  }

  /** The pass keeps a start-sorted list sorted. */
  lemma {:induction false} MergeFromSorted(acc: Entry, rest: seq<Entry>)
    requires SortedBy([acc] + rest, EntryStart)
    ensures SortedBy(MergeFrom(acc, rest), EntryStart)
    ensures forall x :: x in MergeFrom(acc, rest) ==> acc.start <= x.start
    decreases |rest|
  {
    if rest != [] {
      var e := rest[0];
      var tail := rest[1..];
      if Absorbs(acc, e) {
        var acc' := Absorb(acc, e);
        SortedSkip(acc, acc', rest);
        MergeFromSorted(acc', tail);
      } else {
        SortedTail(acc, rest);
        assert [e] + tail == rest;
        MergeFromSorted(e, tail);
        var t := MergeFrom(e, tail);
        assert MergeFrom(acc, rest) == [acc] + t;
        assert ([acc] + rest)[1] == e;
        SortedCons(acc, t);
      }
    }
  }

  /** Dropping the second element of a sorted list, and replacing the head
      by one with the same start, keeps it sorted. */
  lemma {:induction false} SortedSkip(x: Entry, y: Entry, rest: seq<Entry>)
    requires SortedBy([x] + rest, EntryStart) && rest != [] && y.start == x.start
    ensures SortedBy([y] + rest[1..], EntryStart)
  {
    var all := [x] + rest;
    var all' := [y] + rest[1..];
    forall i, j | 0 <= i < j < |all'| ensures EntryStart(all'[i]) <= EntryStart(all'[j]) {
      assert all'[j] == all[j + 1];
      if i > 0 {
        assert all'[i] == all[i + 1];
      } else {
        assert EntryStart(all[0]) <= EntryStart(all[j + 1]);
      }
    }
  }

  lemma {:induction false} SortedTail(x: Entry, rest: seq<Entry>)
    requires SortedBy([x] + rest, EntryStart)
    ensures SortedBy(rest, EntryStart)
    ensures forall k :: 0 <= k < |rest| ==> x.start <= rest[k].start
  {
    var all := [x] + rest;
    forall k | 0 <= k < |rest| ensures all[k + 1] == rest[k] && x.start <= rest[k].start {
      assert EntryStart(all[0]) <= EntryStart(all[k + 1]);
    }
  }

  lemma {:induction false} SortedCons(x: Entry, t: seq<Entry>)
    requires SortedBy(t, EntryStart)
    requires forall y :: y in t ==> x.start <= y.start
    ensures SortedBy([x] + t, EntryStart)
  {
    var r := [x] + t;
    forall i, j | 0 <= i < j < |r| ensures EntryStart(r[i]) <= EntryStart(r[j]) {
      assert r[j] == t[j - 1] && r[j] in t;
      if i > 0 {
        assert r[i] == t[i - 1];
      }
    }
  }

  /** Every entry is shown under the label of some canonical speaker. */
  predicate LabelledFrom(es: seq<Entry>, labels: map<string, string>, canon: seq<string>) {
    forall x :: x in es ==> exists c :: c in canon && x.speaker == Display(labels, c)
  }

  /** The pass only ever keeps speakers its input had. */
  lemma {:induction false} MergeFromLabels(acc: Entry, rest: seq<Entry>, labels: map<string, string>, canon: seq<string>)
    requires LabelledFrom([acc] + rest, labels, canon)
    ensures LabelledFrom(MergeFrom(acc, rest), labels, canon)
    decreases |rest|
  {
    if rest != [] {
      var e := rest[0];
      var tail := rest[1..];
      assert acc in [acc] + rest && e in [acc] + rest;
      assert forall x :: x in tail ==> x in [acc] + rest;
      if Absorbs(acc, e) {
        MergeFromLabels(Absorb(acc, e), tail, labels, canon);
      } else {
        MergeFromLabels(e, tail, labels, canon);
      }
    }
  }

  // ---------------------------------------------------------------------
  // The whole of `merge_transcriptions`

  /** `None` where the source raises inside its `try`. */
  function Reconcile(segs: seq<seq<Utterance>>, labels: map<string, string>, raw: seq<Window>): Option<seq<Entry>> {
    var ordered := SortBy(Flatten(segs, raw), EntryStart);
    match BuildMapping(ordered)
    case None => None
    case Some(m) => Some(MergeAdjacent(SortBy(ApplyLabels(ordered, m, labels), EntryStart)))
  }

  /** The bare `except` turns every failure into an empty transcript. */
  function MergeTranscriptions(segs: seq<seq<Utterance>>, labels: map<string, string>, raw: seq<Window>): seq<Entry> {
    Reconcile(segs, labels, raw).GetOr([])
  }

  /** The flattened, sorted list has a window-0 entry exactly when window 0
      has an utterance. */
  lemma {:induction false} OrderedHasWindowZero(segs: seq<seq<Utterance>>, raw: seq<Window>)
    ensures (exists e :: e in SortBy(Flatten(segs, raw), EntryStart) && e.segmentIndex == 0)
        <==> |segs| > 0 && segs[0] != []
  {
    var flat := Flatten(segs, raw);
    var ordered := SortBy(flat, EntryStart);
    FlattenByWindow(segs, raw, 0);
    assert forall e :: e in ordered <==> e in flat by {
      assert forall e :: e in ordered <==> e in multiset(ordered);
    }
    if |segs| > 0 && segs[0] != [] {
      var l := OfWindow(flat, 0);
      assert l[0] in l;
      OfWindowMembers(flat, 0, l[0]);
    } else {
      assert OfWindow(flat, 0) == [];
      forall e | e in flat && e.segmentIndex == 0 ensures false {
        OfWindowMembers(flat, 0, e);
      }
    }
  }

  /** The merged transcript is empty exactly when there are no windows or
      window 0 has no utterance. */
  lemma {:induction false} MergeEmptyIff(segs: seq<seq<Utterance>>, labels: map<string, string>, raw: seq<Window>)
    ensures MergeTranscriptions(segs, labels, raw) == [] <==> |segs| == 0 || segs[0] == []
  {
    var ordered := SortBy(Flatten(segs, raw), EntryStart);
    OrderedHasWindowZero(segs, raw);
    BuildMappingFailsIff(ordered);
  }

  /** Unfolds a merge whose window 0 has an utterance. */
  lemma {:induction false} SuccessfulMerge(segs: seq<seq<Utterance>>, labels: map<string, string>, raw: seq<Window>)
    returns (ordered: seq<Entry>, m: Mapping)
    requires |segs| > 0 && segs[0] != []
    ensures ordered == SortBy(Flatten(segs, raw), EntryStart)
    ensures BuildMapping(ordered) == Some(m) && ordered != []
    ensures MergeTranscriptions(segs, labels, raw) == MergeAdjacent(ApplyLabels(ordered, m, labels))
  {
    ordered := SortBy(Flatten(segs, raw), EntryStart);
    OrderedHasWindowZero(segs, raw);
    BuildMappingFailsIff(ordered);
    m := BuildMapping(ordered).value;
    SecondSortIsIdentity(ordered, m, labels);
  }

  lemma {:induction false} ApplyLabelsSorted(es: seq<Entry>, m: Mapping, labels: map<string, string>)
    requires SortedBy(es, EntryStart)
    ensures SortedBy(ApplyLabels(es, m, labels), EntryStart)
  {
    var r := ApplyLabels(es, m, labels);
    assert forall j :: 0 <= j < |r| ==> EntryStart(r[j]) == EntryStart(es[j]);
  }

  /** With a mapping that covers every entry, each relabelled speaker is the
      label of a canonical speaker. */
  lemma {:induction false} ApplyLabelsLabelled(es: seq<Entry>, m: Mapping, labels: map<string, string>)
    requires BuildMapping(es) == Some(m)
    ensures LabelledFrom(ApplyLabels(es, m, labels), labels, Canonical(es))
  {
    var r := ApplyLabels(es, m, labels);
    forall x | x in r
      ensures exists c :: c in Canonical(es) && x.speaker == Display(labels, c)
    {
      var j :| 0 <= j < |r| && r[j] == x;
      MappingCoversEntries(es, m, es[j]);
    }
  }

  /** The merge pass on a non-empty start-sorted list: sorted, settled, a
      fixed point, and no longer than its input. */
  lemma {:induction false} MergeAdjacentShape(es: seq<Entry>)
    requires es != [] && SortedBy(es, EntryStart)
    ensures var r := MergeAdjacent(es);
      1 <= |r| <= |es| && SortedBy(r, EntryStart) && Settled(r) && MergeAdjacent(r) == r
  {
    assert es == [es[0]] + es[1..];
    MergeAdjacentIdempotent(es);
    MergeFromSorted(es[0], es[1..]);
  }

  /** A successful merge is start-sorted, settled (a second pass changes
      nothing) and no longer than the flattened list. */
  lemma {:induction false} MergeOutcomeShape(segs: seq<seq<Utterance>>, labels: map<string, string>, raw: seq<Window>)
    requires |segs| > 0 && segs[0] != []
    ensures var r := MergeTranscriptions(segs, labels, raw);
      && 1 <= |r| <= |SortBy(Flatten(segs, raw), EntryStart)|
      && SortedBy(r, EntryStart)
      && Settled(r)
      && MergeAdjacent(r) == r
  {
    var ordered, m := SuccessfulMerge(segs, labels, raw);
    ApplyLabelsSorted(ordered, m, labels);
    MergeAdjacentShape(ApplyLabels(ordered, m, labels));
  }

  /** A successful merge loses no words: its space-joined text is that of
      every utterance in start order. */
  lemma {:induction false} MergeOutcomeText(segs: seq<seq<Utterance>>, labels: map<string, string>, raw: seq<Window>)
    requires |segs| > 0 && segs[0] != []
    ensures Join(Texts(MergeTranscriptions(segs, labels, raw)), " ")
         == Join(Texts(SortBy(Flatten(segs, raw), EntryStart)), " ")
  {
    var ordered, m := SuccessfulMerge(segs, labels, raw);
    var relabelled := ApplyLabels(ordered, m, labels);
    MergeAdjacentText(relabelled);
    RelabelledTexts(ordered, m, labels);
    assert Texts(relabelled) == Texts(ordered);
  }

  /** The merge pass keeps the space-joined text of any list. */
  lemma {:induction false} MergeAdjacentText(es: seq<Entry>)
    ensures Join(Texts(MergeAdjacent(es)), " ") == Join(Texts(es), " ")
  {
    if es != [] {
      assert es == [es[0]] + es[1..];
      MergeFromText(es[0], es[1..]);
    }
  }

  /** Every speaker of a successful merge is the display label of one of
      window 0's speakers. */
  lemma {:induction false} MergeOutcomeLabels(segs: seq<seq<Utterance>>, labels: map<string, string>, raw: seq<Window>)
    requires |segs| > 0 && segs[0] != []
    ensures LabelledFrom(MergeTranscriptions(segs, labels, raw), labels, Canonical(SortBy(Flatten(segs, raw), EntryStart)))
  {
    var ordered, m := SuccessfulMerge(segs, labels, raw);
    ApplyLabelsLabelled(ordered, m, labels);
    MergeAdjacentLabels(ApplyLabels(ordered, m, labels), labels, Canonical(ordered));
  }

  lemma {:induction false} MergeAdjacentLabels(es: seq<Entry>, labels: map<string, string>, canon: seq<string>)
    requires LabelledFrom(es, labels, canon)
    ensures LabelledFrom(MergeAdjacent(es), labels, canon)
  {
    if es != [] {
      assert es == [es[0]] + es[1..];
      MergeFromLabels(es[0], es[1..], labels, canon);
    }
  }

  lemma {:induction false} RelabelledTexts(es: seq<Entry>, m: Mapping, labels: map<string, string>)
    ensures Texts(ApplyLabels(es, m, labels)) == Texts(es)
    decreases |es|
  {
    if es != [] {
      RelabelledTexts(es[1..], m, labels);
      assert ApplyLabels(es, m, labels)[1..] == ApplyLabels(es[1..], m, labels);
    }
  }

  lemma {:induction false} FlattenFromTrailingEmpty(segs: seq<seq<Utterance>>, raw: seq<Window>, base: nat)
    ensures FlattenFrom(segs + [[]], raw, base) == FlattenFrom(segs, raw, base)
    decreases |segs|
  {
    if segs == [] {
      assert FlattenFrom([[]], raw, base) == Lift([], WindowStart(raw, base), base) + FlattenFrom([], raw, base + 1);
    } else {
      assert (segs + [[]])[1..] == segs[1..] + [[]];
      FlattenFromTrailingEmpty(segs[1..], raw, base + 1);
    }
  }

  /** A trailing window without utterances changes nothing. */
  lemma {:induction false} TrailingEmptyWindow(segs: seq<seq<Utterance>>, labels: map<string, string>, raw: seq<Window>)
    requires segs != []
    ensures MergeTranscriptions(segs + [[]], labels, raw) == MergeTranscriptions(segs, labels, raw)
  {
    FlattenFromTrailingEmpty(segs, raw, 0);
  }

  /** The threshold is strict: a gap of 1999 ms merges, 2000 ms does not. */
  lemma {:induction false} GapBoundary()
    ensures MergeAdjacent([Entry("a", "S", 0, 1000, 0), Entry("b", "S", 2999, 4000, 0)])
         == [Entry("a b", "S", 0, 4000, 0)]
    ensures MergeAdjacent([Entry("a", "S", 0, 1000, 0), Entry("b", "S", 3000, 4000, 0)])
         == [Entry("a", "S", 0, 1000, 0), Entry("b", "S", 3000, 4000, 0)]
  {
    var x := [Entry("a", "S", 0, 1000, 0), Entry("b", "S", 2999, 4000, 0)];
    assert x[1..] == [Entry("b", "S", 2999, 4000, 0)];
    assert x[1..][1..] == [];
    assert Absorbs(x[0], x[1]);
    assert Absorb(x[0], x[1]) == Entry("a b", "S", 0, 4000, 0);
    var y := [Entry("a", "S", 0, 1000, 0), Entry("b", "S", 3000, 4000, 0)];
    assert y[1..] == [Entry("b", "S", 3000, 4000, 0)];
    assert y[1..][1..] == [];
  }

  /** An utterance nested inside the current one (as happens in the overlap
      of two windows) moves the merged end backwards. */
  lemma {:induction false} MergedEndCanShrink()
    ensures MergeAdjacent([Entry("a", "S", 0, 5000, 0), Entry("b", "S", 1000, 3000, 1)])
         == [Entry("a b", "S", 0, 3000, 0)]
  {
    var x := [Entry("a", "S", 0, 5000, 0), Entry("b", "S", 1000, 3000, 1)];
    assert x[1..] == [Entry("b", "S", 1000, 3000, 1)];
    assert x[1..][1..] == [];
    assert Absorbs(x[0], x[1]);
    assert Absorb(x[0], x[1]) == Entry("a b", "S", 0, 3000, 0);
  }
}
