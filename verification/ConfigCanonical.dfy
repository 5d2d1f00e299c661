/** What the printed text depends on, and exactly when it reads back (app/product_config.py). */
module ConfigCanonical {
  import opened Seqs
  import opened Toml
  import opened ConfigFile
  import opened ConfigRoundTrip
  import opened ConfigNames
  import Sorting
  import Text

  // ----- one text for one configuration -----

  function KeptAmong(data: Config, sections: seq<string>): seq<string> {
    if sections == [] then []
    else if IsKept(data, sections[0]) then [sections[0]] + KeptAmong(data, sections[1..])
    else KeptAmong(data, sections[1..])
  }

  lemma {:induction false} KeptAmongConcat(data: Config, a: seq<string>, b: seq<string>)
    ensures KeptAmong(data, a + b) == KeptAmong(data, a) + KeptAmong(data, b)
  {
    if a == [] {
      assert a + b == b;
    } else {
      KeptAmongConcat(data, a[1..], b);
      assert (a + b)[1..] == a[1..] + b;
    }
  }

  function KeptNames(data: Config, names: set<string>): set<string> {
    set s | s in names && IsKept(data, s)
  }

  lemma {:induction false} LeastIsUnique(a: set<string>, b: set<string>)
    requires a != {} && b <= a && Sorting.Least(a) in b
    ensures b != {} && Sorting.Least(b) == Sorting.Least(a)
  {
    Text.StringLeAntisymmetric(Sorting.Least(a), Sorting.Least(b));
  }

  /** Dropping names from a sorted list gives the sorted list of the names that stay. */
  lemma {:induction false} KeptAmongSorted(data: Config, names: set<string>)
    ensures KeptAmong(data, Sorting.SortedStrings(names)) == Sorting.SortedStrings(KeptNames(data, names))
    decreases |names|
  {
    if names == {} {
      assert KeptNames(data, names) == {};
    } else {
      var x := Sorting.Least(names);
      KeptAmongSorted(data, names - {x});
      if IsKept(data, x) {
        LeastIsUnique(names, KeptNames(data, names));
        assert KeptNames(data, names - {x}) == KeptNames(data, names) - {x};
      } else {
        assert KeptNames(data, names - {x}) == KeptNames(data, names);
      }
    }
  }

  /** Sections that are not written make no difference, nor does having seen them. */
  lemma {:induction false} BlocksOfKept(data: Config, sections: seq<string>, seen: set<string>, seen': set<string>)
    requires forall s :: IsKept(data, s) ==> (s in seen <==> s in seen')
    ensures Blocks(data, sections, seen) == Blocks(Kept(data), KeptAmong(data, sections), seen')
    decreases |sections|
  {
    if sections != [] {
      var s, rest := sections[0], sections[1..];
      if !IsKept(data, s) {
        BlocksOfKept(data, rest, if s in seen then seen else seen + {s}, seen');
        assert Block(data, s) + Blocks(data, rest, seen + {s}) == Blocks(data, rest, seen + {s});
      } else {
        var kept := KeptAmong(data, sections);
        assert kept[0] == s && kept[1..] == KeptAmong(data, rest);
        if s in seen {
          BlocksOfKept(data, rest, seen, seen');
        } else {
          assert Block(data, s) == Block(Kept(data), s);
          BlocksOfKept(data, rest, seen + {s}, seen' + {s});
        }
      }
    }
  }

  lemma {:induction false} BlocksOfAllKept(data: Config, sections: seq<string>, sections': seq<string>)
    requires KeptAmong(data, sections) == KeptAmong(Kept(data), sections')
    ensures Blocks(data, sections, {}) == Blocks(Kept(data), sections', {})
  {
    BlocksOfKept(data, sections, {}, {});
    BlocksOfKept(Kept(data), sections', {}, {});
    assert Kept(Kept(data)) == Kept(data);
  }

  lemma {:induction false} KeptAmongKept(data: Config, sections: seq<string>)
    ensures KeptAmong(Kept(data), sections) == KeptAmong(data, sections)
  {
    if sections != [] {
      KeptAmongKept(data, sections[1..]);
    }
  }

  /** The text depends only on what is written, so reading a file and writing it again changes nothing. */
  lemma TextIsCanonical(data: Config)
    ensures Document(Kept(data)) == Document(data)
  {
    var kept := Kept(data);
    KeptAmongSorted(data, data.Keys);
    KeptAmongSorted(kept, kept.Keys);
    assert KeptNames(data, data.Keys) == KeptNames(kept, kept.Keys);
    SortedTailsAgree(data, KNOWN_SECTIONS, Sorting.SortedStrings(data.Keys), Sorting.SortedStrings(kept.Keys));
    BlocksOfAllKept(data, Sections(data), Sections(kept));
  }

  lemma {:induction false} SortedTailsAgree(data: Config, known: seq<string>, a: seq<string>, b: seq<string>)
    requires KeptAmong(data, a) == KeptAmong(Kept(data), b)
    ensures KeptAmong(data, known + a) == KeptAmong(Kept(data), known + b)
  {
    KeptAmongConcat(data, known, a);
    KeptAmongConcat(Kept(data), known, b);
    KeptAmongKept(data, known);
  }

  // ----- exactly what reads back -----

  lemma KeptTwice(data: Config)
    ensures Kept(Kept(data)) == Kept(data) && (PrintableConfig(Kept(data)) <==> PrintableConfig(data))
  {
    assert forall s :: IsKept(Kept(data), s) <==> IsKept(data, s);
  }

  /**
   * For every configuration: reading what was written gives the tables that are written if and only if their
   * names and keys are bare, for the printer puts no quotation marks around them, and no string in them holds a
   * control character, for it escapes none.
   */
  lemma ReadsBackIff(data: Config)
    ensures Read(Document(data)) == Some(Kept(data)) <==> BareNames(Kept(data)) && PrintableConfig(data)
    ensures BareNames(Kept(data)) ==> (Read(Document(data)).Some? <==> PrintableConfig(data))
  {
    if BareNames(Kept(data)) {
      TextIsCanonical(data);
      KeptTwice(data);
      BareReadsBack(Kept(data));
    } else if Read(Document(data)) == Some(Kept(data)) {
      OnlyBareNamesReadBack(data);
    }
  }
}
