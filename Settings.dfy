/**
 * The two list-valued settings of the claim script, read from the environment
 * variables `ADS` (availability-domain names) and `OCPUS` (OCPU counts to try).
 * An unset variable takes its default; a set one is parsed as written.
 */
module Settings {
  import opened Options
  import opened Text

  /** Default of `ADS` when the variable is unset. */
  const DefaultAds: string := "AD-1,AD-2,AD-3"
  /** Default of `OCPUS` when the variable is unset. */
  const DefaultOcpus: string := "4,2,1"

  // ---------------------------------------------------------------------
  // Reading a setting piece by piece
  // ---------------------------------------------------------------------

  /** What `f` reads from each piece, one piece after another. */
  function Gather<T>(f: string -> seq<T>, pieces: seq<string>): (r: seq<T>)
    ensures pieces == [] ==> r == []
  {
    if pieces == [] then [] else f(pieces[0]) + Gather(f, pieces[1..])
  }

  /** Reading piece by piece: two runs of pieces give what the first gives, then what the second gives. */
  lemma {:induction false} GatherAppend<T>(f: string -> seq<T>, a: seq<string>, b: seq<string>)
    ensures Gather(f, a + b) == Gather(f, a) + Gather(f, b)
  {
    if a == [] {
      assert a + b == b;
    } else {
      assert (a + b)[0] == a[0] && (a + b)[1..] == a[1..] + b;
      GatherAppend(f, a[1..], b);
    }
  }

  /** A value is read from a run of pieces exactly when some piece of it gives that value. */
  lemma {:induction false} GatherMembers<T>(f: string -> seq<T>, pieces: seq<string>, v: T)
    ensures v in Gather(f, pieces) <==> exists p :: p in pieces && v in f(p)
  {
    if pieces != [] {
      var rest := pieces[1..];
      GatherMembers(f, rest, v);
      if v in Gather(f, rest) {
        var p :| p in rest && v in f(p);
        assert p in pieces;
      }
      if exists p :: p in pieces && v in f(p) {
        var p :| p in pieces && v in f(p);
        if p != pieces[0] {
          assert p in rest;
        }
      }
    }
  }

  // ---------------------------------------------------------------------
  // ADS
  // ---------------------------------------------------------------------

  /** What one piece contributes to `ADS`: its stripped text, unless that is empty. */
  function AdEntry(p: string): seq<string> {
    var t := Strip(p);
    if t != "" then [t] else []
  }

  /** A piece gives at most one entry, clean, and without a comma when the piece has none. */
  lemma AdEntryClean(p: string)
    ensures |AdEntry(p)| <= 1
    ensures forall a :: a in AdEntry(p) ==> a != "" && IsStripped(a) && (',' !in p ==> ',' !in a)
  {
  }

  /** The stripped pieces that are not empty, in order. */
  function AdEntries(pieces: seq<string>): (r: seq<string>)
    ensures |r| <= |pieces|
    ensures forall a :: a in r ==> a != "" && IsStripped(a)
    ensures (forall p :: p in pieces ==> ',' !in p) ==> forall a :: a in r ==> ',' !in a
  {
    if pieces == [] then []
    else
      AdEntryClean(pieces[0]);
      assert forall p :: p in pieces[1..] ==> p in pieces;
      AdEntry(pieces[0]) + AdEntries(pieces[1..])
  }

  /** The configured availability-domain list: comma-split, each entry stripped, empty entries dropped. */
  function ParseAds(env: Option<string>): seq<string> {
    AdEntries(Split(env.GetOr(DefaultAds), ','))
  }

  /** One piece gives its stripped text, or nothing when that is empty. */
  lemma AdEntriesOne(p: string)
    ensures AdEntries([p]) == if Strip(p) != "" then [Strip(p)] else []
  {
    assert [p][1..] == [];
  }

  /** Entries are kept piece by piece: the entries of two runs of pieces are those of the first, then those of the second. */
  lemma AdEntriesAppend(a: seq<string>, b: seq<string>)
    ensures AdEntries(a + b) == AdEntries(a) + AdEntries(b)
  {
    AdEntriesGather(a);
    AdEntriesGather(b);
    AdEntriesGather(a + b);
    GatherAppend(AdEntry, a, b);
  }

  /** `AdEntries` reads the pieces one at a time with `AdEntry`. */
  lemma {:induction false} AdEntriesGather(pieces: seq<string>)
    ensures AdEntries(pieces) == Gather(AdEntry, pieces)
  {
    if pieces != [] {
      AdEntriesGather(pieces[1..]);
    }
  }

  /**
   * Two comma-separated settings written one after the other give the
   * domains of the first, then those of the second: order and repeats are
   * kept, whatever blanks or spaces the text holds.
   */
  lemma ParseAdsConcat(x: string, y: string)
    ensures ParseAds(Some(x + "," + y)) == ParseAds(Some(x)) + ParseAds(Some(y))
  {
    SplitAppend(x, ',', y);
    AdEntriesAppend(Split(x, ','), Split(y, ','));
  }

  /** An AD name is configured exactly when some comma-separated entry strips to it and it is not empty. */
  lemma AdEntriesMembers(pieces: seq<string>, a: string)
    ensures a in AdEntries(pieces) <==> a != "" && exists p :: p in pieces && Strip(p) == a
  {
    AdEntriesGather(pieces);
    GatherMembers(AdEntry, pieces, a);
    forall p ensures a in AdEntry(p) <==> a != "" && Strip(p) == a {
    }
  }

  /** The entries of `ADS`, as a lemma on the whole setting. */
  lemma ParseAdsMembers(raw: string, a: string)
    ensures a in ParseAds(Some(raw)) <==> a != "" && exists p :: p in Split(raw, ',') && Strip(p) == a
  {
    AdEntriesMembers(Split(raw, ','), a);
  }

  /** Entries that are already clean pass through unchanged and in order. */
  lemma {:induction false} AdEntriesClean(names: seq<string>)
    requires forall a :: a in names ==> a != "" && IsStripped(a) && ',' !in a
    ensures AdEntries(names) == names
  {
    if names != [] {
      StripStripped(names[0]);
      forall a | a in names[1..] ensures a != "" && IsStripped(a) && ',' !in a {
        assert a in names;
      }
      AdEntriesClean(names[1..]);
      assert [names[0]] + names[1..] == names;
    }
  }

  /** Writing clean names comma-separated and parsing them back gives the same list, order included. */
  lemma AdsRoundTrip(names: seq<string>)
    requires forall a :: a in names ==> a != "" && IsStripped(a) && ',' !in a
    ensures ParseAds(Some(Join(names, ','))) == names
  {
    if names == [] {
      assert Split("", ',') == [""];
      StripStripped("");
    } else {
      SplitJoin(names, ',');
      AdEntriesClean(names);
    }
  }

  /** With `ADS` unset the list is AD-1, AD-2, AD-3. */
  lemma DefaultAdsList()
    ensures ParseAds(None) == ["AD-1", "AD-2", "AD-3"]
  {
    var names := ["AD-1", "AD-2", "AD-3"];
    assert Join(names, ',') == DefaultAds by {
      assert Join(names[2..], ',') == "AD-3";
      assert Join(names[1..], ',') == "AD-2,AD-3";
    }
    forall a | a in names ensures a != "" && IsStripped(a) && ',' !in a {
      assert a == "AD-1" || a == "AD-2" || a == "AD-3";
    }
    AdsRoundTrip(names);
  }

  // ---------------------------------------------------------------------
  // OCPUS
  // ---------------------------------------------------------------------

  /** What one piece contributes to `OCPUS`: the value of its stripped text, if that is all digits. */
  function OcpuEntry(p: string): seq<nat> {
    var t := Strip(p);
    if IsDigits(t) then [DigitsValue(t)] else []
  }

  /** The values of the pieces whose stripped text is all digits, in order. */
  function OcpuEntries(pieces: seq<string>): (r: seq<nat>)
    ensures |r| <= |pieces|
  {
    if pieces == [] then [] else OcpuEntry(pieces[0]) + OcpuEntries(pieces[1..])
  }

  /** The configured OCPU candidates: comma-split, only entries whose stripped text is all digits, as integers. */
  function ParseOcpus(env: Option<string>): seq<nat> {
    OcpuEntries(Split(env.GetOr(DefaultOcpus), ','))
  }

  /** One piece gives its value when its stripped text is all digits, and nothing otherwise. */
  lemma OcpuEntriesOne(p: string)
    ensures OcpuEntries([p]) == if IsDigits(Strip(p)) then [DigitsValue(Strip(p))] else []
  {
    assert [p][1..] == [];
  }

  /** Counts are read piece by piece: those of two runs of pieces are those of the first, then those of the second. */
  lemma OcpuEntriesAppend(a: seq<string>, b: seq<string>)
    ensures OcpuEntries(a + b) == OcpuEntries(a) + OcpuEntries(b)
  {
    OcpuEntriesGather(a);
    OcpuEntriesGather(b);
    OcpuEntriesGather(a + b);
    GatherAppend(OcpuEntry, a, b);
  }

  /** `OcpuEntries` reads the pieces one at a time with `OcpuEntry`. */
  lemma {:induction false} OcpuEntriesGather(pieces: seq<string>)
    ensures OcpuEntries(pieces) == Gather(OcpuEntry, pieces)
  {
    if pieces != [] {
      OcpuEntriesGather(pieces[1..]);
    }
  }

  /**
   * Two comma-separated settings written one after the other give the
   * counts of the first, then those of the second: order and repeats are
   * kept, and junk entries are dropped where they stand.
   */
  lemma ParseOcpusConcat(x: string, y: string)
    ensures ParseOcpus(Some(x + "," + y)) == ParseOcpus(Some(x)) + ParseOcpus(Some(y))
  {
    SplitAppend(x, ',', y);
    OcpuEntriesAppend(Split(x, ','), Split(y, ','));
  }

  /** A count is a candidate exactly when some entry's stripped text is all digits and has that value. */
  lemma OcpuEntriesMembers(pieces: seq<string>, v: nat)
    ensures v in OcpuEntries(pieces) <==>
      exists p :: p in pieces && IsDigits(Strip(p)) && DigitsValue(Strip(p)) == v
  {
    OcpuEntriesGather(pieces);
    GatherMembers(OcpuEntry, pieces, v);
    forall p ensures v in OcpuEntry(p) <==> IsDigits(Strip(p)) && DigitsValue(Strip(p)) == v {
    }
  }

  /** The entries of `OCPUS`, as a lemma on the whole setting. */
  lemma ParseOcpusMembers(raw: string, v: nat)
    ensures v in ParseOcpus(Some(raw)) <==>
      exists p :: p in Split(raw, ',') && IsDigits(Strip(p)) && DigitsValue(Strip(p)) == v
  {
    OcpuEntriesMembers(Split(raw, ','), v);
  }

  /** The decimal spelling of each count. */
  function Spell(xs: seq<nat>): (r: seq<string>)
    ensures |r| == |xs|
    ensures forall k :: 0 <= k < |xs| ==> r[k] == NatToString(xs[k])
  {
    seq(|xs|, k requires 0 <= k < |xs| => NatToString(xs[k]))
  }

  lemma {:induction false} OcpuEntriesSpelled(xs: seq<nat>)
    ensures OcpuEntries(Spell(xs)) == xs
  {
    if xs != [] {
      var s := NatToString(xs[0]);
      assert IsStripped(s) by {
        assert IsDigit(s[0]) && IsDigit(s[|s| - 1]);
      }
      StripStripped(s);
      NatToStringValue(xs[0]);
      assert Spell(xs)[1..] == Spell(xs[1..]);
      OcpuEntriesSpelled(xs[1..]);
      assert [xs[0]] + xs[1..] == xs;
    }
  }

  /** Writing counts comma-separated in decimal and parsing them back gives the same list, order included. */
  lemma OcpusRoundTrip(xs: seq<nat>)
    ensures ParseOcpus(Some(Join(Spell(xs), ','))) == xs
  {
    if xs == [] {
      assert Split("", ',') == [""];
      StripStripped("");
    } else {
      forall p | p in Spell(xs) ensures ',' !in p {
        var k :| 0 <= k < |xs| && Spell(xs)[k] == p;
        assert IsDigits(p);
      }
      SplitJoin(Spell(xs), ',');
      OcpuEntriesSpelled(xs);
    }
  }

  /** With `OCPUS` unset the candidates are 4, 2, 1. */
  lemma DefaultOcpusList()
    ensures ParseOcpus(None) == [4, 2, 1]
  {
    var xs: seq<nat> := [4, 2, 1];
    assert Spell(xs) == ["4", "2", "1"];
    assert Join(Spell(xs), ',') == DefaultOcpus by {
      assert Join(Spell(xs)[2..], ',') == "1";
      assert Join(Spell(xs)[1..], ',') == "2,1";
    }
    OcpusRoundTrip(xs);
  }
}
