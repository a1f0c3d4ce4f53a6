/** The first half of `merge_transcriptions`: every window's utterances are
    lifted to absolute time and flattened, the flat list is stably sorted by
    start, and each (window, local speaker) pair is mapped to one of window
    0's speaker ids by sorted position. */
module SpeakerMap {
  import opened Wrappers
  import opened Text
  import opened Records
  import opened Windower
  import opened Sorting

  // ---------------------------------------------------------------------
  // Lifting to absolute time

  /** `start_time` of the first raw window whose `index` is `idx`, or 0 when
      no raw window carries that index. */
  function WindowStart(raw: seq<Window>, idx: nat): (r: int)
    ensures (forall k :: 0 <= k < |raw| ==> raw[k].index != idx) ==> r == 0
    ensures forall k :: (0 <= k < |raw| && raw[k].index == idx && (forall k' :: 0 <= k' < k ==> raw[k'].index != idx)
      ==> r == raw[k].startTime)
  {
    if raw == [] then 0
    else if raw[0].index == idx then raw[0].startTime
    else
      assert forall k :: 0 < k < |raw| ==> raw[1..][k - 1] == raw[k];
      WindowStart(raw[1..], idx)
  }

  /** The window list a split produces numbers its windows by position, so
      the lookup finds window `i` itself. */
  lemma {:induction false} WindowStartOfSplit(total: nat, segment: int, overlap: int, i: nat)
    requires Step(segment, overlap) != 0
    requires i < |Windows(total, segment, overlap)|
    ensures WindowStart(Windows(total, segment, overlap), i) == Windows(total, segment, overlap)[i].startTime
  {
    var ws := Windows(total, segment, overlap);
    assert ws[i].index == i;
    assert forall k' :: 0 <= k' < i ==> ws[k'].index != i;
  }

  /** One window's utterances shifted by the window's start. */
  function Lift(us: seq<Utterance>, offset: int, idx: nat): (r: seq<Entry>)
    ensures |r| == |us|
    ensures forall j :: 0 <= j < |r| ==> r[j] == Entry(us[j].text, us[j].speaker, offset + us[j].start, offset + us[j].end, idx)
  {
    seq(|us|, j requires 0 <= j < |us| => Entry(us[j].text, us[j].speaker, offset + us[j].start, offset + us[j].end, idx))
  }

  function FlattenFrom(segs: seq<seq<Utterance>>, raw: seq<Window>, base: nat): seq<Entry>
    decreases |segs|
  {
    if segs == [] then []
    else Lift(segs[0], WindowStart(raw, base), base) + FlattenFrom(segs[1..], raw, base + 1)
  }

  /** All windows' utterances in window order, then in-window order. */
  function Flatten(segs: seq<seq<Utterance>>, raw: seq<Window>): seq<Entry> {
    FlattenFrom(segs, raw, 0)
  }

  /** The entries of window `idx`, in order. */
  function OfWindow(es: seq<Entry>, idx: nat): seq<Entry> {
    if es == [] then []
    else (if es[0].segmentIndex == idx then [es[0]] else []) + OfWindow(es[1..], idx)
  }

  /** `OfWindow` keeps exactly the entries tagged with window `idx`. */
  lemma {:induction false} OfWindowMembers(es: seq<Entry>, idx: nat, e: Entry)
    ensures e in OfWindow(es, idx) <==> e in es && e.segmentIndex == idx
  {
    if es != [] {
      OfWindowMembers(es[1..], idx, e);
      assert es == [es[0]] + es[1..];
    }
  }

  lemma {:induction false} OfWindowAppend(a: seq<Entry>, b: seq<Entry>, idx: nat)
    ensures OfWindow(a + b, idx) == OfWindow(a, idx) + OfWindow(b, idx)
  {
    if a != [] {
      assert (a + b)[1..] == a[1..] + b;
      OfWindowAppend(a[1..], b, idx);
    } else {
      assert a + b == b;
    }
  }

  lemma {:induction false} OfWindowLift(us: seq<Utterance>, offset: int, k: nat, idx: nat)
    ensures OfWindow(Lift(us, offset, k), idx) == if k == idx then Lift(us, offset, k) else []
  {
    var l := Lift(us, offset, k);
    OfWindowUniform(l, k, idx);
  }

  lemma {:induction false} OfWindowUniform(es: seq<Entry>, k: nat, idx: nat)
    requires forall j :: 0 <= j < |es| ==> es[j].segmentIndex == k
    ensures OfWindow(es, idx) == if k == idx then es else []
  {
    if es != [] {
      OfWindowUniform(es[1..], k, idx);
    }
  }

  lemma {:induction false} FlattenFromByWindow(segs: seq<seq<Utterance>>, raw: seq<Window>, base: nat, idx: nat)
    ensures OfWindow(FlattenFrom(segs, raw, base), idx)
         == if base <= idx < base + |segs| then Lift(segs[idx - base], WindowStart(raw, idx), idx) else []
    decreases |segs|
  {
    if segs != [] {
      var offset := WindowStart(raw, base);
      var head := Lift(segs[0], offset, base);
      var tail := FlattenFrom(segs[1..], raw, base + 1);
      assert FlattenFrom(segs, raw, base) == head + tail;
      OfWindowAppend(head, tail, idx);
      OfWindowLift(segs[0], offset, base, idx);
      FlattenFromByWindow(segs[1..], raw, base + 1, idx);
      if idx == base {
        assert OfWindow(tail, idx) == [];
        assert OfWindow(head, idx) == Lift(segs[idx - base], WindowStart(raw, idx), idx);
      } else if base < idx < base + |segs| {
        assert OfWindow(head, idx) == [];
        assert segs[1..][idx - (base + 1)] == segs[idx - base];
      } else {
        assert OfWindow(head, idx) == [] && OfWindow(tail, idx) == [];
      }
    }
  }

  /** Flattening keeps each window's utterances together and in order, each
      shifted by that window's `start_time`: absolute start and end are the
      window start plus the local start and end. */
  lemma {:induction false} FlattenByWindow(segs: seq<seq<Utterance>>, raw: seq<Window>, idx: nat)
    ensures OfWindow(Flatten(segs, raw), idx)
         == if idx < |segs| then Lift(segs[idx], WindowStart(raw, idx), idx) else []
  {
    FlattenFromByWindow(segs, raw, 0, idx);
    var lifted := OfWindow(FlattenFrom(segs, raw, 0), idx);
    assert OfWindow(Flatten(segs, raw), idx) == lifted;
    if idx < |segs| {
      assert lifted == Lift(segs[idx - 0], WindowStart(raw, idx), idx);
    } else {
      assert lifted == [];
    }
  }

  /** The sort key of `all_utterances.sort(key=lambda x: x['start'])`. */
  function EntryStart(e: Entry): int { e.start }

  /** The flattened list sorted by start: ties keep flattening order, that is
      window order and then in-window order. */
  lemma {:induction false} SortedTiesKeepOrder(segs: seq<seq<Utterance>>, raw: seq<Window>)
    ensures var flat := Flatten(segs, raw); var sorted := SortBy(flat, EntryStart);
      SortedBy(sorted, EntryStart) && multiset(sorted) == multiset(flat)
      && forall k :: WithKey(sorted, EntryStart, k) == WithKey(flat, EntryStart, k)
  {
  }

  // ---------------------------------------------------------------------
  // Speaker reconciliation

  function Speakers(es: seq<Entry>): (r: seq<string>)
    ensures forall s :: s in r <==> exists e :: e in es && e.speaker == s
  {
    if es == [] then [] else [es[0].speaker] + Speakers(es[1..])
  }

  /** `sorted(set(u['speaker'] for u in all_utterances if u['segment_index'] == idx))`. */
  function WindowSpeakers(es: seq<Entry>, idx: nat): (r: seq<string>)
    ensures StrictlySorted(r) && Distinct(r)
  {
    SortedDistinct(Speakers(OfWindow(es, idx)))
  }

  lemma {:induction false} WindowSpeakersMembers(es: seq<Entry>, idx: nat, s: string)
    ensures s in WindowSpeakers(es, idx) <==> exists e :: e in es && e.segmentIndex == idx && e.speaker == s
  {
    forall e ensures e in OfWindow(es, idx) <==> e in es && e.segmentIndex == idx {
      OfWindowMembers(es, idx, e);
    }
  }

  /** `max(u['segment_index'] for u in all_utterances)`. */
  function MaxWindow(es: seq<Entry>): (r: nat)
    requires es != []
    ensures forall e :: e in es ==> e.segmentIndex <= r
    ensures exists e :: e in es && e.segmentIndex == r
  {
    if |es| == 1 then es[0].segmentIndex
    else
      var m := MaxWindow(es[1..]);
      assert forall e :: e in es <==> e == es[0] || e in es[1..] by {
        assert es == [es[0]] + es[1..];
      }
      if es[0].segmentIndex >= m then es[0].segmentIndex else m
  }

  /** The first branch of the source: at most as many local speakers as
      canonical ones, map by position (the fallback to the first canonical
      speaker cannot be reached because `k < |local| <= |canon|`). */
  function PositionalTarget(canon: seq<string>, k: nat): string
    requires |canon| > 0
  {
    if k < |canon| then canon[k] else canon[0]
  }

  /** The second branch: `k % len(canon)`. With no canonical speaker the
      modulo raises, and so does the fallback `canon[0]` inside the bare
      `except`, so the error escapes: `None`. */
  function ModuloTarget(canon: seq<string>, k: nat): Option<string> {
    if |canon| == 0 then None else Some(canon[k % |canon|])
  }

  /** The canonical id for the `k`-th sorted local speaker of a window. */
  function Target(canon: seq<string>, local: seq<string>, k: nat): Option<string>
    requires k < |local|
  {
    if |local| <= |canon| then Some(PositionalTarget(canon, k)) else ModuloTarget(canon, k)
  }

  /** Both branches coincide: the `k`-th sorted local speaker maps to
      `canon[k mod |canon|]`, and only an empty canonical list fails. */
  lemma {:induction false} TargetIsModulo(canon: seq<string>, local: seq<string>, k: nat)
    requires k < |local|
    ensures Target(canon, local, k) == if |canon| == 0 then None else Some(canon[k % |canon|])
  {
  }

  type Mapping = map<(nat, string), string>

  /** The inner `for speaker in segment_speakers` loop from position `k`. */
  function MapWindow(canon: seq<string>, local: seq<string>, idx: nat, m: Mapping, k: nat): (r: Option<Mapping>)
    requires k <= |local|
    requires Distinct(local)
    ensures r.None? <==> k < |local| && |canon| == 0
    ensures r.Some? ==> m.Keys <= r.value.Keys
    ensures r.Some? ==> forall key :: key in m && (key.0 != idx || key.1 !in local[k..]) ==> r.value[key] == m[key]
    ensures r.Some? ==> forall j :: k <= j < |local| ==> (idx, local[j]) in r.value && r.value[(idx, local[j])] == canon[j % |canon|]
    ensures r.Some? && (forall key :: key in m ==> m[key] in canon) ==> forall key :: key in r.value ==> r.value[key] in canon
    decreases |local| - k
  {
    if k == |local| then Some(m)
    else
      TargetIsModulo(canon, local, k);
      match Target(canon, local, k)
      case None => None
      case Some(c) =>
        var m' := m[(idx, local[k]) := c];
        var r := MapWindow(canon, local, idx, m', k + 1);
        assert forall j :: k < j < |local| ==> local[j] != local[k];
        assert forall s :: s in local[k..] <==> s == local[k] || s in local[k + 1..] by {
          assert local[k..] == [local[k]] + local[k + 1..];
        }
        assert local[k] !in local[k + 1..];
        r
  }

  /** The outer `for segment_idx in range(i, last + 1)` loop. */
  function MapWindows(es: seq<Entry>, canon: seq<string>, i: nat, last: nat, m: Mapping): Option<Mapping>
    decreases last + 1 - i
  {
    if i > last then Some(m)
    else
      match MapWindow(canon, WindowSpeakers(es, i), i, m, 0)
      case None => None
      case Some(m') => MapWindows(es, canon, i + 1, last, m')
  }

  /** The loops fail exactly when the canonical list is empty while some
      window from `i` to `last` has an utterance. */
  lemma {:induction false} MapWindowsFailsIff(es: seq<Entry>, canon: seq<string>, i: nat, last: nat, m: Mapping)
    ensures MapWindows(es, canon, i, last, m).None?
        <==> |canon| == 0 && exists e :: e in es && i <= e.segmentIndex <= last
    decreases last + 1 - i
  {
    if i <= last {
      var local := WindowSpeakers(es, i);
      match MapWindow(canon, local, i, m, 0)
      case None =>
        WindowSpeakersMembers(es, i, local[0]);
        var e :| e in es && e.segmentIndex == i && e.speaker == local[0];
      case Some(m') =>
        forall e | e in es && e.segmentIndex == i ensures |canon| > 0 {
          WindowSpeakersMembers(es, i, e.speaker);
        }
        MapWindowsFailsIff(es, canon, i + 1, last, m');
        if |canon| == 0 && exists e :: e in es && i <= e.segmentIndex <= last {
          var e :| e in es && i <= e.segmentIndex <= last;
          assert i + 1 <= e.segmentIndex;
        }
    }
  }

  /** The later windows never touch entries of earlier windows. */
  lemma {:induction false} MapWindowsKeepsEarlier(es: seq<Entry>, canon: seq<string>, i: nat, last: nat, m: Mapping, key: (nat, string))
    requires MapWindows(es, canon, i, last, m).Some?
    requires key in m && key.0 < i
    ensures key in MapWindows(es, canon, i, last, m).value
    ensures MapWindows(es, canon, i, last, m).value[key] == m[key]
    decreases last + 1 - i
  {
    if i <= last {
      var m' := MapWindow(canon, WindowSpeakers(es, i), i, m, 0).value;
      assert key in m' && m'[key] == m[key];
      MapWindowsKeepsEarlier(es, canon, i + 1, last, m', key);
      var r := MapWindows(es, canon, i + 1, last, m').value;
      assert r[key] == m[key];
      assert MapWindows(es, canon, i, last, m).value == r;
    } else {
      assert MapWindows(es, canon, i, last, m) == Some(m);
    }
  }

  /** In window `j` (between `i` and `last`), the `k`-th sorted local speaker
      maps to `canon[k mod |canon|]`. */
  lemma {:induction false} MapWindowsAssigns(es: seq<Entry>, canon: seq<string>, i: nat, last: nat, m: Mapping, j: nat, k: nat)
    requires MapWindows(es, canon, i, last, m).Some?
    requires i <= j <= last && k < |WindowSpeakers(es, j)|
    ensures |canon| > 0
    ensures (j, WindowSpeakers(es, j)[k]) in MapWindows(es, canon, i, last, m).value
    ensures MapWindows(es, canon, i, last, m).value[(j, WindowSpeakers(es, j)[k])] == canon[k % |canon|]
    decreases last + 1 - i
  {
    var local := WindowSpeakers(es, i);
    var m' := MapWindow(canon, local, i, m, 0).value;
    assert MapWindows(es, canon, i, last, m) == MapWindows(es, canon, i + 1, last, m');
    if j == i {
      assert (i, local[k]) in m' && m'[(i, local[k])] == canon[k % |canon|];
      MapWindowsKeepsEarlier(es, canon, i + 1, last, m', (i, local[k]));
    } else {
      MapWindowsAssigns(es, canon, i + 1, last, m', j, k);
    }
  }

  /** Every value the loops write is a canonical id. */
  lemma {:induction false} MapWindowsValues(es: seq<Entry>, canon: seq<string>, i: nat, last: nat, m: Mapping, key: (nat, string))
    requires MapWindows(es, canon, i, last, m).Some?
    requires forall k :: k in m ==> m[k] in canon
    requires key in MapWindows(es, canon, i, last, m).value
    ensures MapWindows(es, canon, i, last, m).value[key] in canon
    decreases last + 1 - i
  {
    if i <= last {
      var m' := MapWindow(canon, WindowSpeakers(es, i), i, m, 0).value;
      var r := MapWindows(es, canon, i + 1, last, m').value;
      assert MapWindows(es, canon, i, last, m).value == r;
      assert forall k :: k in m' ==> m'[k] in canon;
      MapWindowsValues(es, canon, i + 1, last, m', key);
    } else {
      assert MapWindows(es, canon, i, last, m) == Some(m);
    }
  }

  /** Window 0's sorted distinct speakers: the canonical ids. */
  function Canonical(es: seq<Entry>): seq<string> {
    WindowSpeakers(es, 0)
  }

  function Identity(canon: seq<string>): (m: Mapping)
    ensures forall key :: key in m <==> key.0 == 0 && key.1 in canon
    ensures forall key :: key in m ==> m[key] == key.1
  {
    map s | s in canon :: (0, s) := s
  }

  /** The whole `speaker_mapping` construction; `None` when it raises. */
  function BuildMapping(es: seq<Entry>): Option<Mapping> {
    if es == [] then None
    else MapWindows(es, Canonical(es), 1, MaxWindow(es), Identity(Canonical(es)))
  }

  /** The mapping fails exactly when there is no utterance at all (the `max`
      of an empty sequence) or window 0 has none (the canonical list is
      empty while a later window has speakers). */
  lemma {:induction false} BuildMappingFailsIff(es: seq<Entry>)
    ensures BuildMapping(es).None? <==> forall e :: e in es ==> e.segmentIndex != 0
  {
    if es != [] {
      var canon := Canonical(es);
      MapWindowsFailsIff(es, canon, 1, MaxWindow(es), Identity(canon));
      if |canon| == 0 {
        forall e | e in es ensures e.segmentIndex != 0 {
          WindowSpeakersMembers(es, 0, e.speaker);
        }
        assert es[0] in es && 1 <= es[0].segmentIndex <= MaxWindow(es);
      } else {
        WindowSpeakersMembers(es, 0, canon[0]);
      }
    }
  }

  /** Window 0's speakers map to themselves. */
  lemma {:induction false} MappingOfWindowZero(es: seq<Entry>, m: Mapping, s: string)
    requires BuildMapping(es) == Some(m)
    requires s in Canonical(es)
    ensures (0, s) in m && m[(0, s)] == s
  {
    MapWindowsKeepsEarlier(es, Canonical(es), 1, MaxWindow(es), Identity(Canonical(es)), (0, s));
  }

  /** In every later window the `k`-th sorted local speaker maps to the
      canonical speaker at position `k mod |canonical|`. */
  lemma {:induction false} MappingOfLaterWindow(es: seq<Entry>, m: Mapping, j: nat, k: nat)
    requires BuildMapping(es) == Some(m)
    requires 1 <= j && k < |WindowSpeakers(es, j)|
    ensures |Canonical(es)| > 0
    ensures (j, WindowSpeakers(es, j)[k]) in m
    ensures m[(j, WindowSpeakers(es, j)[k])] == Canonical(es)[k % |Canonical(es)|]
  {
    var canon := Canonical(es);
    WindowSpeakersMembers(es, j, WindowSpeakers(es, j)[k]);
    var e :| e in es && e.segmentIndex == j && e.speaker == WindowSpeakers(es, j)[k];
    assert j <= MaxWindow(es);
    MapWindowsAssigns(es, canon, 1, MaxWindow(es), Identity(canon), j, k);
  }

  /** Every utterance's (window, speaker) pair has an entry, and it names a
      canonical speaker, so the `get` fallback is never taken. */
  lemma {:induction false} MappingCoversEntries(es: seq<Entry>, m: Mapping, e: Entry)
    requires BuildMapping(es) == Some(m)
    requires e in es
    ensures (e.segmentIndex, e.speaker) in m && m[(e.segmentIndex, e.speaker)] in Canonical(es)
  {
    var j := e.segmentIndex;
    WindowSpeakersMembers(es, j, e.speaker);
    var local := WindowSpeakers(es, j);
    var k :| 0 <= k < |local| && local[k] == e.speaker;
    if j == 0 {
      MappingOfWindowZero(es, m, e.speaker);
    } else {
      MappingOfLaterWindow(es, m, j, k);
    }
  }

  /** Every id the mapping produces, for any key, is a canonical one. */
  lemma {:induction false} MappingValues(es: seq<Entry>, m: Mapping, key: (nat, string))
    requires BuildMapping(es) == Some(m)
    requires key in m
    ensures m[key] in Canonical(es)
  {
    MapWindowsValues(es, Canonical(es), 1, MaxWindow(es), Identity(Canonical(es)), key);
  }
}
