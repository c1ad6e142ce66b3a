/** The constant symbol table: 27 symbols, each sent as a triplet of tones. */
module SymbolTable {
  import opened Wrappers

  /** The three tone frequencies, in Hz, that stand for one symbol. */
  datatype Triplet = Triplet(low: int, mid: int, high: int)

  /** One table entry: a symbol and its triplet. */
  datatype Entry = Entry(symbol: char, freqs: Triplet)

  /** The three frequencies of each band. */
  const LowBand: seq<int> := [100, 300, 500]
  const MidBand: seq<int> := [1100, 1300, 1500]
  const HighBand: seq<int> := [2500, 3000, 3500]

  /** The table's keys in definition order. */
  const Symbols: string := "abcdefghijklmnopqrstuvwxyz "

  /** The table, entry by entry, in definition order. */
  const Table: seq<Entry> := [
    Entry('a', Triplet(100, 1100, 2500)), Entry('b', Triplet(100, 1100, 3000)), Entry('c', Triplet(100, 1100, 3500)),
    Entry('d', Triplet(100, 1300, 2500)), Entry('e', Triplet(100, 1300, 3000)), Entry('f', Triplet(100, 1300, 3500)),
    Entry('g', Triplet(100, 1500, 2500)), Entry('h', Triplet(100, 1500, 3000)), Entry('i', Triplet(100, 1500, 3500)),
    Entry('j', Triplet(300, 1100, 2500)), Entry('k', Triplet(300, 1100, 3000)), Entry('l', Triplet(300, 1100, 3500)),
    Entry('m', Triplet(300, 1300, 2500)), Entry('n', Triplet(300, 1300, 3000)), Entry('o', Triplet(300, 1300, 3500)),
    Entry('p', Triplet(300, 1500, 2500)), Entry('q', Triplet(300, 1500, 3000)), Entry('r', Triplet(300, 1500, 3500)),
    Entry('s', Triplet(500, 1100, 2500)), Entry('t', Triplet(500, 1100, 3000)), Entry('u', Triplet(500, 1100, 3500)),
    Entry('v', Triplet(500, 1300, 2500)), Entry('w', Triplet(500, 1300, 3000)), Entry('x', Triplet(500, 1300, 3500)),
    Entry('y', Triplet(500, 1500, 2500)), Entry('z', Triplet(500, 1500, 3000)), Entry(' ', Triplet(500, 1500, 3500))]

  /** The triplet that the base-3 positional code assigns to table index `i`. */
  function PositionalTriplet(i: nat): Triplet
    requires i < 27
  {
    Triplet(LowBand[i / 9], MidBand[(i / 3) % 3], HighBand[i % 3])
  }

  /** The table's keys are the 27 symbols, and entry i carries the positional triplet of i. */
  lemma TableIsPositionalCode()
    ensures |Table| == |Symbols| == 27
    ensures forall i :: 0 <= i < 27 ==> Table[i].symbol == Symbols[i]
    ensures forall i :: 0 <= i < 27 ==> Table[i].freqs == PositionalTriplet(i)
  {
    forall i | 0 <= i < 27
      ensures Table[i].symbol == Symbols[i] && Table[i].freqs == PositionalTriplet(i)
    {
      RowIsPositional(i);
    }
  }

  lemma RowIsPositional(i: nat)
    requires i < 27
    ensures Table[i].symbol == Symbols[i] && Table[i].freqs == PositionalTriplet(i)
  {
    if i < 9 {
      assert i in {0, 1, 2, 3, 4, 5, 6, 7, 8};
    } else if i < 18 {
      assert i in {9, 10, 11, 12, 13, 14, 15, 16, 17};
    } else {
      assert i in {18, 19, 20, 21, 22, 23, 24, 25, 26};
    }
  }

  predicate IsSymbol(c: char) {
    c in Symbols
  }

  /** The keys are the lower-case letters and the space. */
  lemma KeysAreLettersAndSpace(c: char)
    ensures IsSymbol(c) <==> 'a' <= c <= 'z' || c == ' '
  {
    if 'a' <= c <= 'z' {
      var i := c as int - 'a' as int;
      assert Symbols[i] == c;
    }
  }

  /** Membership in the dictionary with its value: the first entry whose key is `c`, searching from `i`. */
  function LookupFrom(c: char, i: nat): (r: Result<Triplet, CodecError>)
    requires i <= |Table|
    ensures r.Ok? <==> exists j :: i <= j < |Table| && Table[j].symbol == c
    ensures r.Ok? ==> exists j :: i <= j < |Table| && Table[j] == Entry(c, r.value)
    ensures r.Err? ==> r.error == UnknownCharacter(c)
    decreases |Table| - i
  {
    if i == |Table| then Err(UnknownCharacter(c))
    else if Table[i].symbol == c then Ok(Table[i].freqs)
    else LookupFrom(c, i + 1)
  }

  /** `CHAR_FREQUENCIES[c]`, guarded by `c not in CHAR_FREQUENCIES` raising. */
  function Lookup(c: char): (r: Result<Triplet, CodecError>)
    ensures r.Ok? <==> IsSymbol(c)
    ensures r.Ok? ==> exists j :: 0 <= j < 27 && Table[j] == Entry(c, r.value)
    ensures r.Err? ==> r.error == UnknownCharacter(c)
  {
    TableIsPositionalCode();
    assert forall j :: 0 <= j < 27 ==> (Table[j].symbol == c <==> Symbols[j] == c);
    LookupFrom(c, 0)
  }

  /** The triplet of a known symbol. */
  function TripletOf(c: char): Triplet
    requires IsSymbol(c)
  {
    Lookup(c).value
  }

  /** No two keys are equal, as in any dictionary literal that round-trips its keys. */
  lemma SymbolsAreDistinct()
    ensures forall i, j :: 0 <= i < j < 27 ==> Symbols[i] != Symbols[j]
  {
  }

  /** i is determined by its three base-3 digits. */
  lemma Digits(i: nat)
    requires i < 27
    ensures i == 9 * (i / 9) + 3 * ((i / 3) % 3) + i % 3
  {
    if i < 9 {
      assert i in {0, 1, 2, 3, 4, 5, 6, 7, 8};
    } else if i < 18 {
      assert i in {9, 10, 11, 12, 13, 14, 15, 16, 17};
    } else {
      assert i in {18, 19, 20, 21, 22, 23, 24, 25, 26};
    }
  }

  /** The positional code is injective: the triplet determines the table index. */
  lemma PositionalCodeIsInjective(i: nat, j: nat)
    requires i < 27 && j < 27
    requires PositionalTriplet(i) == PositionalTriplet(j)
    ensures i == j
  {
    Digits(i);
    Digits(j);
    assert i / 9 == j / 9 by { BandIndex(LowBand, i / 9, j / 9); }
    assert (i / 3) % 3 == (j / 3) % 3 by { BandIndex(MidBand, (i / 3) % 3, (j / 3) % 3); }
    assert i % 3 == j % 3 by { BandIndex(HighBand, i % 3, j % 3); }
  }

  lemma BandIndex(band: seq<int>, a: nat, b: nat)
    requires band == LowBand || band == MidBand || band == HighBand
    requires a < 3 && b < 3 && band[a] == band[b]
    ensures a == b
  {
  }

  /** Distinct symbols are sent as distinct triplets, so a triplet identifies its symbol. */
  lemma TableIsInjective()
    ensures forall i, j :: 0 <= i < 27 && 0 <= j < 27 && Table[i].freqs == Table[j].freqs ==> i == j
  {
    TableIsPositionalCode();
    forall i, j | 0 <= i < 27 && 0 <= j < 27 && Table[i].freqs == Table[j].freqs
      ensures i == j
    {
      PositionalCodeIsInjective(i, j);
    }
  }

  /** Looking up a symbol gives the triplet of its own table entry. */
  lemma LookupFindsEntry(i: nat)
    requires i < 27
    ensures Lookup(Symbols[i]) == Ok(Table[i].freqs)
    ensures TripletOf(Symbols[i]) == PositionalTriplet(i)
  {
    TableIsPositionalCode();
    SymbolsAreDistinct();
    var r := Lookup(Symbols[i]);
    var j :| 0 <= j < 27 && Table[j] == Entry(Symbols[i], r.value);
    assert Symbols[j] == Symbols[i];
  }

  /** The frequencies of one triplet, as a set. */
  function Components(t: Triplet): set<int> {
    {t.low, t.mid, t.high}
  }

  /** The union of all triplet components: the decoder's candidate frequencies. */
  function AllFrequencies(): set<int> {
    set i, f | 0 <= i < |Table| && f in Components(Table[i].freqs) :: f
  }

  /** The nine band frequencies, as a set. */
  const BandFrequencies: set<int> := {100, 300, 500, 1100, 1300, 1500, 2500, 3000, 3500}

  /** The candidate set is exactly the nine band frequencies. */
  lemma AllFrequenciesAreTheBands()
    ensures AllFrequencies() == BandFrequencies
    ensures |AllFrequencies()| == 9
  {
    CandidatesWithinBands();
    BandsAreCandidates();
    assert |BandFrequencies| == 9;
  }

  lemma CandidatesWithinBands()
    ensures AllFrequencies() <= BandFrequencies
  {
    TableIsPositionalCode();
    forall f | f in AllFrequencies()
      ensures f in BandFrequencies
    {
      var i :| 0 <= i < |Table| && f in Components(Table[i].freqs);
      assert Table[i].freqs == PositionalTriplet(i);
    }
  }

  lemma BandsAreCandidates()
    ensures BandFrequencies <= AllFrequencies()
  {
    forall f | f in BandFrequencies
      ensures f in AllFrequencies()
    {
      var i := if f in {100, 1100, 2500} then 0 else if f in {300, 1300, 3000} then 13 else 26;
      assert f in Components(Table[i].freqs);
    }
  }

  /** A triplet of the table takes its low, mid and high frequency from the three disjoint bands. */
  lemma TripletInBands(i: nat)
    requires i < 27
    ensures Table[i].freqs.low in LowBand
    ensures Table[i].freqs.mid in MidBand
    ensures Table[i].freqs.high in HighBand
  {
    TableIsPositionalCode();
  }
}
