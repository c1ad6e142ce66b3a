/**
 * `map_frequencies_to_char`: the first table symbol, in definition order, at least three of whose
 * inputs lie within 100 Hz of one of its tones; `?` when there is none.
 */
module Classifier {
  import opened SymbolTable
  import opened Spectrum

  const Tolerance: real := 100.0
  const Unknown: char := '?'

  /** `abs(cf - f) <= tolerance`. */
  predicate Near(f: real, cf: int) {
    Abs(cf as real - f) <= Tolerance
  }

  /** `any(abs(cf - f) <= tolerance for cf in char_freqs)`. */
  predicate MatchesTriplet(t: Triplet, f: real) {
    Near(f, t.low) || Near(f, t.mid) || Near(f, t.high)
  }

  /** `match_count`: how many inputs, with repetitions, match some tone of the triplet. */
  function MatchCount(t: Triplet, fs: seq<real>): (n: nat)
    ensures n <= |fs|
  {
    if |fs| == 0 then 0
    else (if MatchesTriplet(t, fs[0]) then 1 else 0) + MatchCount(t, fs[1..])
  }

  /** The positions of the inputs that match some tone of the triplet. */
  function MatchingInputs(t: Triplet, fs: seq<real>): set<nat> {
    set k: nat | k < |fs| && MatchesTriplet(t, fs[k])
  }

  /** `match_count` is the number of inputs, counted by position, that match some tone of the triplet. */
  lemma {:induction false} MatchCountIsMatchingInputs(t: Triplet, fs: seq<real>)
    ensures MatchCount(t, fs) == |MatchingInputs(t, fs)|
    decreases |fs|
  {
    if |fs| > 0 {
      var init := fs[..|fs| - 1];
      var last := fs[|fs| - 1];
      assert fs == init + [last];
      MatchCountSnoc(t, init, last);
      MatchCountIsMatchingInputs(t, init);
      MatchingInputsSnoc(t, init, last);
    }
  }

  lemma MatchingInputsSnoc(t: Triplet, fs: seq<real>, f: real)
    ensures |MatchingInputs(t, fs + [f])| == |MatchingInputs(t, fs)| + (if MatchesTriplet(t, f) then 1 else 0)
  {
    var before := MatchingInputs(t, fs);
    var after := MatchingInputs(t, fs + [f]);
    var added: set<nat> := if MatchesTriplet(t, f) then {|fs|} else {};
    forall k: nat
      ensures k in after <==> k in before + added
    {
      if k < |fs| {
        assert (fs + [f])[k] == fs[k];
      } else if k == |fs| {
        assert (fs + [f])[k] == f;
      }
    }
    assert after == before + added;
    assert |fs| !in before;
  }

  /** Counting an input appended at the end. */
  lemma {:induction false} MatchCountSnoc(t: Triplet, fs: seq<real>, f: real)
    ensures MatchCount(t, fs + [f]) == MatchCount(t, fs) + (if MatchesTriplet(t, f) then 1 else 0)
    decreases |fs|
  {
    if |fs| > 0 {
      assert (fs + [f])[1..] == fs[1..] + [f];
      MatchCountSnoc(t, fs[1..], f);
    } else {
      assert ([] + [f])[1..] == [];
    }
  }

  /** Among the entries of `table` from i on, entry j is the first whose match count reaches three. */
  predicate IsFirstMatch(table: seq<Entry>, fs: seq<real>, i: nat, j: nat)
    requires i <= j < |table|
  {
    MatchCount(table[j].freqs, fs) >= 3 &&
    forall k :: i <= k < j ==> MatchCount(table[k].freqs, fs) < 3
  }

  /** Entry j of the symbol table is the first whose match count reaches three. */
  predicate FirstMatchAt(fs: seq<real>, j: nat)
    requires j < |Table|
  {
    IsFirstMatch(Table, fs, 0, j)
  }

  /** The loop over the entries of `table` from entry i on, returning at the first match. */
  function ClassifyFrom(table: seq<Entry>, fs: seq<real>, i: nat): (c: char)
    requires i <= |table|
    ensures (forall j :: i <= j < |table| ==> MatchCount(table[j].freqs, fs) < 3) ==> c == Unknown
    ensures (exists j :: i <= j < |table| && MatchCount(table[j].freqs, fs) >= 3) ==>
      exists j :: i <= j < |table| && IsFirstMatch(table, fs, i, j) && table[j].symbol == c
    decreases |table| - i
  {
    if i == |table| then Unknown
    else if MatchCount(table[i].freqs, fs) >= 3 then
      assert IsFirstMatch(table, fs, i, i);
      table[i].symbol
    else
      var c := ClassifyFrom(table, fs, i + 1);
      assert (exists j :: i <= j < |table| && MatchCount(table[j].freqs, fs) >= 3) ==>
        exists j :: i <= j < |table| && IsFirstMatch(table, fs, i, j) && table[j].symbol == c by {
        if exists j :: i <= j < |table| && MatchCount(table[j].freqs, fs) >= 3 {
          var j :| i <= j < |table| && MatchCount(table[j].freqs, fs) >= 3;
          assert i + 1 <= j;
          var j' :| i + 1 <= j' < |table| && IsFirstMatch(table, fs, i + 1, j') && table[j'].symbol == c;
          assert IsFirstMatch(table, fs, i, j');
        }
      }
      c
  }

  lemma UnknownIsNotASymbol(j: nat)
    requires j < |Table|
    ensures Table[j].symbol == Symbols[j] && Table[j].symbol != Unknown
  {
    TableIsPositionalCode();
    assert Symbols[j] in Symbols;
  }

  /** `map_frequencies_to_char`: a table symbol or `?`; the symbol of the first entry matched three times. */
  function Classify(fs: seq<real>): (c: char)
    ensures c == Unknown || IsSymbol(c)
    ensures c == Unknown <==> forall j :: 0 <= j < 27 ==> MatchCount(Table[j].freqs, fs) < 3
    ensures c != Unknown ==> exists j :: 0 <= j < 27 && c == Symbols[j] && FirstMatchAt(fs, j)
  {
    var c := ClassifyFrom(Table, fs, 0);
    assert |Table| == 27;
    assert (c == Unknown || IsSymbol(c)) &&
           (c == Unknown <==> forall j :: 0 <= j < 27 ==> MatchCount(Table[j].freqs, fs) < 3) &&
           (c != Unknown ==> exists j :: 0 <= j < 27 && c == Symbols[j] && FirstMatchAt(fs, j)) by {
      if exists j :: 0 <= j < 27 && MatchCount(Table[j].freqs, fs) >= 3 {
        var j :| 0 <= j < 27 && IsFirstMatch(Table, fs, 0, j) && Table[j].symbol == c;
        UnknownIsNotASymbol(j);
        assert FirstMatchAt(fs, j);
        assert c in Symbols;
      }
    }
    c
  }

  /** Fewer than three inputs can never reach the threshold. */
  lemma FewInputsAreUnknown(fs: seq<real>)
    requires |fs| < 3
    ensures Classify(fs) == Unknown
  {
  }

  /** `f` lies strictly within the tolerance of the band frequency x: it can be read as x and as nothing else. */
  predicate Snaps(f: real, x: int) {
    Abs(x as real - f) < Tolerance
  }

  /** `f` is beyond the tolerance of every band frequency, so it matches no symbol at all. */
  predicate Far(f: real) {
    forall x :: x in BandFrequencies ==> Abs(x as real - f) > Tolerance
  }

  /** How many inputs snap to x. */
  function SnapCount(fs: seq<real>, x: int): (n: nat)
    ensures n <= |fs|
  {
    if |fs| == 0 then 0
    else (if Snaps(fs[0], x) then 1 else 0) + SnapCount(fs[1..], x)
  }

  /** Every input is either far from all bands or snaps to one of the triplet's tones. */
  predicate CleanFor(fs: seq<real>, t: Triplet) {
    forall k :: 0 <= k < |fs| ==> Far(fs[k]) || Snaps(fs[k], t.low) || Snaps(fs[k], t.mid) || Snaps(fs[k], t.high)
  }

  /**
   * The inputs a noiseless-enough decoder would hand over for triplet t: each of its three tones is
   * approximated (within strictly less than 100 Hz) by exactly one input, and every other input is far
   * from all nine band frequencies.
   */
  predicate Resembles(fs: seq<real>, t: Triplet) {
    CleanFor(fs, t) && SnapCount(fs, t.low) == 1 && SnapCount(fs, t.mid) == 1 && SnapCount(fs, t.high) == 1
  }

  /** Band frequencies are at least 200 Hz apart, so an input near one is too far from any other. */
  lemma SnapIsUnique(f: real, x: int, y: int)
    requires x in BandFrequencies && y in BandFrequencies && x != y
    requires Snaps(f, y)
    ensures !Near(f, x) && !Snaps(f, x)
  {
  }

  /** For a clean input, matching a table triplet means snapping to one of its tones (and to only one). */
  lemma EntryMatches(u: Triplet, t: Triplet, f: real)
    requires u.low in LowBand && u.mid in MidBand && u.high in HighBand
    requires t.low in LowBand && t.mid in MidBand && t.high in HighBand
    requires Far(f) || Snaps(f, t.low) || Snaps(f, t.mid) || Snaps(f, t.high)
    ensures (if MatchesTriplet(u, f) then 1 else 0) ==
      (if Snaps(f, u.low) then 1 else 0) + (if Snaps(f, u.mid) then 1 else 0) + (if Snaps(f, u.high) then 1 else 0)
  {
    if !Far(f) {
      var y := if Snaps(f, t.low) then t.low else if Snaps(f, t.mid) then t.mid else t.high;
      assert Snaps(f, y);
      assert y in BandFrequencies;
      if u.low != y { SnapIsUnique(f, u.low, y); }
      if u.mid != y { SnapIsUnique(f, u.mid, y); }
      if u.high != y { SnapIsUnique(f, u.high, y); }
    } else {
      assert u.low in BandFrequencies && u.mid in BandFrequencies && u.high in BandFrequencies;
    }
  }

  /** For clean inputs, a triplet's match count is the number of inputs snapping to each of its tones. */
  lemma {:induction false} MatchCountBySnaps(u: Triplet, t: Triplet, fs: seq<real>)
    requires u.low in LowBand && u.mid in MidBand && u.high in HighBand
    requires t.low in LowBand && t.mid in MidBand && t.high in HighBand
    requires CleanFor(fs, t)
    ensures MatchCount(u, fs) == SnapCount(fs, u.low) + SnapCount(fs, u.mid) + SnapCount(fs, u.high)
  {
    if |fs| > 0 {
      EntryMatches(u, t, fs[0]);
      assert CleanFor(fs[1..], t) by {
        forall k | 0 <= k < |fs[1..]|
          ensures Far(fs[1..][k]) || Snaps(fs[1..][k], t.low) || Snaps(fs[1..][k], t.mid) || Snaps(fs[1..][k], t.high)
        {
          assert fs[1..][k] == fs[k + 1];
        }
      }
      MatchCountBySnaps(u, t, fs[1..]);
    }
  }

  /** Clean inputs snap to no band frequency outside the triplet. */
  lemma {:induction false} NoSnapsElsewhere(t: Triplet, fs: seq<real>, x: int)
    requires t.low in BandFrequencies && t.mid in BandFrequencies && t.high in BandFrequencies
    requires x in BandFrequencies && x != t.low && x != t.mid && x != t.high
    requires CleanFor(fs, t)
    ensures SnapCount(fs, x) == 0
  {
    if |fs| > 0 {
      var f := fs[0];
      if !Far(f) {
        var y := if Snaps(f, t.low) then t.low else if Snaps(f, t.mid) then t.mid else t.high;
        SnapIsUnique(f, x, y);
      }
      assert CleanFor(fs[1..], t) by {
        forall k | 0 <= k < |fs[1..]|
          ensures Far(fs[1..][k]) || Snaps(fs[1..][k], t.low) || Snaps(fs[1..][k], t.mid) || Snaps(fs[1..][k], t.high)
        {
          assert fs[1..][k] == fs[k + 1];
        }
      }
      NoSnapsElsewhere(t, fs[1..], x);
    }
  }

  /** The match count of entry j on inputs resembling entry i's triplet: one per tone the two entries share. */
  lemma MatchCountOnResemblance(i: nat, j: nat, fs: seq<real>)
    requires i < 27 && j < 27
    requires Resembles(fs, Table[i].freqs)
    ensures MatchCount(Table[j].freqs, fs) ==
      (if Table[j].freqs.low == Table[i].freqs.low then 1 else 0) +
      (if Table[j].freqs.mid == Table[i].freqs.mid then 1 else 0) +
      (if Table[j].freqs.high == Table[i].freqs.high then 1 else 0)
  {
    var t := Table[i].freqs;
    var u := Table[j].freqs;
    TripletInBands(i);
    TripletInBands(j);
    MatchCountBySnaps(u, t, fs);
    if u.low != t.low { NoSnapsElsewhere(t, fs, u.low); }
    if u.mid != t.mid { NoSnapsElsewhere(t, fs, u.mid); }
    if u.high != t.high { NoSnapsElsewhere(t, fs, u.high); }
  }

  /**
   * Classification recovers the symbol: inputs that approximate a symbol's triplet to within less
   * than the tolerance, with any extra inputs far from every band, are classified as that symbol.
   */
  lemma ClassifiesResemblingInput(i: nat, fs: seq<real>)
    requires i < 27
    requires Resembles(fs, Table[i].freqs)
    ensures Classify(fs) == Symbols[i]
  {
    TableIsPositionalCode();
    TableIsInjective();
    forall j | 0 <= j < 27
      ensures j != i ==> MatchCount(Table[j].freqs, fs) < 3
      ensures j == i ==> MatchCount(Table[j].freqs, fs) == 3
    {
      MatchCountOnResemblance(i, j, fs);
    }
    var c := Classify(fs);
    var j :| 0 <= j < 27 && c == Symbols[j] && FirstMatchAt(fs, j);
    assert j == i;
  }

  /** The exact triplet of a symbol, followed by any inputs far from every band, is classified as that symbol. */
  lemma ClassifiesExactTriplet(i: nat, extras: seq<real>)
    requires i < 27
    requires forall k :: 0 <= k < |extras| ==> Far(extras[k])
    ensures Classify([Table[i].freqs.low as real, Table[i].freqs.mid as real, Table[i].freqs.high as real] + extras) == Symbols[i]
  {
    var t := Table[i].freqs;
    TripletInBands(i);
    var fs := [t.low as real, t.mid as real, t.high as real] + extras;
    assert forall k :: 0 <= k < |extras| ==> fs[k + 3] == extras[k];
    assert SnapCount(extras, t.low) == 0 && SnapCount(extras, t.mid) == 0 && SnapCount(extras, t.high) == 0 by {
      assert t.low in BandFrequencies && t.mid in BandFrequencies && t.high in BandFrequencies;
      FarInputsNeverSnap(extras, t.low);
      FarInputsNeverSnap(extras, t.mid);
      FarInputsNeverSnap(extras, t.high);
    }
    assert fs == [t.low as real] + ([t.mid as real] + ([t.high as real] + extras));
    SnapCountCons(t.low as real, [t.mid as real] + ([t.high as real] + extras), t.low);
    SnapCountCons(t.low as real, [t.mid as real] + ([t.high as real] + extras), t.mid);
    SnapCountCons(t.low as real, [t.mid as real] + ([t.high as real] + extras), t.high);
    SnapCountCons(t.mid as real, [t.high as real] + extras, t.low);
    SnapCountCons(t.mid as real, [t.high as real] + extras, t.mid);
    SnapCountCons(t.mid as real, [t.high as real] + extras, t.high);
    SnapCountCons(t.high as real, extras, t.low);
    SnapCountCons(t.high as real, extras, t.mid);
    SnapCountCons(t.high as real, extras, t.high);
    assert CleanFor(fs, t) by {
      forall k | 0 <= k < |fs|
        ensures Far(fs[k]) || Snaps(fs[k], t.low) || Snaps(fs[k], t.mid) || Snaps(fs[k], t.high)
      {
        if k >= 3 {
          assert fs[k] == extras[k - 3];
        }
      }
    }
    ClassifiesResemblingInput(i, fs);
  }

  lemma SnapCountCons(f: real, fs: seq<real>, x: int)
    ensures SnapCount([f] + fs, x) == (if Snaps(f, x) then 1 else 0) + SnapCount(fs, x)
  {
    assert ([f] + fs)[1..] == fs;
  }

  lemma {:induction false} FarInputsNeverSnap(fs: seq<real>, x: int)
    requires x in BandFrequencies
    requires forall k :: 0 <= k < |fs| ==> Far(fs[k])
    ensures SnapCount(fs, x) == 0
  {
    if |fs| > 0 {
      assert Far(fs[0]);
      assert forall k :: 0 <= k < |fs[1..]| ==> fs[1..][k] == fs[k + 1];
      FarInputsNeverSnap(fs[1..], x);
    }
  }

  /** The three tones of a symbol, in any order, are classified as that symbol. */
  lemma ClassifiesTripletInAnyOrder(i: nat, fs: seq<real>)
    requires i < 27
    requires |fs| == 3 && fs[0] != fs[1] && fs[0] != fs[2] && fs[1] != fs[2]
    requires forall k :: 0 <= k < 3 ==>
      fs[k] in {Table[i].freqs.low as real, Table[i].freqs.mid as real, Table[i].freqs.high as real}
    ensures Classify(fs) == Symbols[i]
  {
    var t := Table[i].freqs;
    TripletInBands(i);
    assert fs == [fs[0]] + ([fs[1]] + ([fs[2]] + []));
    forall x | x == t.low || x == t.mid || x == t.high
      ensures SnapCount(fs, x) == 1
    {
      SnapCountCons(fs[0], [fs[1]] + ([fs[2]] + []), x);
      SnapCountCons(fs[1], [fs[2]] + [], x);
      SnapCountCons(fs[2], [], x);
    }
    ClassifiesResemblingInput(i, fs);
  }
}
