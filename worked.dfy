/** Worked examples of the substitution: a template with two `[a]` and
    four supplied ids, and an id outside the phrase list. */
module Examples {
  import opened Strings
  import opened Drama

  /** The first placeholder sits where the first '[' is. */
  lemma FirstPlaceholderAt(s: string, key: string, i: nat)
    requires IsAt(s, Placeholder(key), i)
    requires forall j :: 0 <= j < i ==> s[j] != '['
    ensures IndexOf(s, Placeholder(key), 0) == Some(i)
  {
    var p := Placeholder(key);
    forall j | 0 <= j < i
      ensures !IsAt(s, p, j)
    {
      if j + |p| <= |s| {
        assert s[j..j + |p|][0] == s[j];
      }
    }
  }

  /** Text without '[' holds no placeholder. */
  lemma NoPlaceholder(s: string, key: string)
    requires '[' !in s
    ensures !Contains(s, Placeholder(key))
  {
    var p := Placeholder(key);
    forall j: nat
      ensures !IsAt(s, p, j)
    {
      if j + |p| <= |s| {
        assert s[j..j + |p|][0] == s[j];
        assert s[j] in s;
      }
    }
  }

  /** The first `[a]` of "[a] met [a]" is at its front. */
  lemma FirstReplacement()
    ensures Contains("[a] met [a]", Placeholder("a"))
    ensures ReplaceFirst("[a] met [a]", Placeholder("a"), "Larry") == "Larry met [a]"
  {
    var t0 := "[a] met [a]";
    assert Placeholder("a") == "[a]";
    assert t0[0..3] == "[a]";
    FirstPlaceholderAt(t0, "a", 0);
    assert t0[3..] == " met [a]";
  }

  /** After it, the next `[a]` is the one after "Larry met ". */
  lemma SecondReplacement()
    ensures Contains("Larry met [a]", Placeholder("a"))
    ensures ReplaceFirst("Larry met [a]", Placeholder("a"), "Bob") == "Larry met Bob"
  {
    var t1 := "Larry met [a]";
    assert Placeholder("a") == "[a]";
    assert t1[10..13] == "[a]";
    FirstPlaceholderAt(t1, "a", 10);
    assert t1[..10] == "Larry met ";
  }

  /** After both, none is left. */
  lemma Exhausted()
    ensures !Contains("Larry met Bob", Placeholder("a"))
  {
    NoPlaceholder("Larry met Bob", "a");
  }

  /** Two replacements that use up the placeholder leave the remaining
      ids unrecorded. */
  lemma TwoReplacements(t0: string, t1: string, t2: string, key: string, phrases: seq<string>, ids: seq<int>)
    requires |ids| == 4
    requires Contains(t0, Placeholder(key)) && ReplaceFirst(t0, Placeholder(key), Phrase(phrases, ids[0])) == t1
    requires Contains(t1, Placeholder(key)) && ReplaceFirst(t1, Placeholder(key), Phrase(phrases, ids[1])) == t2
    requires !Contains(t2, Placeholder(key))
    ensures Fill(t0, key, phrases, ids, 4) == Filled(t2, ids[..2])
  {
    FillStep(t0, key, phrases, ids, 1);
    FillStep(t0, key, phrases, ids, 2);
    assert Fill(t0, key, phrases, ids, 2) == Filled(t2, ids[..2]);
    FillStep(t0, key, phrases, ids, 3);
    FillStep(t0, key, phrases, ids, 4);
  }

  /** The inner loop on "[a] met [a]" with ids [0, 1, 0, 0]. */
  lemma ParkFill()
    ensures Fill("[a] met [a]", "a", ["Larry", "Bob"], [0, 1, 0, 0], 4) == Filled("Larry met Bob", [0, 1])
  {
    FirstReplacement();
    SecondReplacement();
    Exhausted();
    TwoReplacements("[a] met [a]", "Larry met [a]", "Larry met Bob", "a", ["Larry", "Bob"], [0, 1, 0, 0]);
  }

  /** "[a] met [a]" with ids [0, 1, 0, 0] for the phrases ["Larry", "Bob"]
      reads "Larry met Bob", and the permalink records only the two ids it
      used. */
  lemma ParkExample()
    ensures var pool := Pool(["[a] met [a]"], [Category("a", ["Larry", "Bob"])]);
            ValidPool(pool) &&
            CreateDrama(pool, Some(Selection(0, map["a" := [0, 1, 0, 0]])))
            == Ok(Drama(Selection(0, map["a" := [0, 1]]), "Larry met Bob"))
  {
    var t0 := "[a] met [a]";
    var c := Category("a", ["Larry", "Bob"]);
    var ids := map["a" := [0, 1, 0, 0]];
    ParkFill();
    FirstReplacement();
    assert [c][..0] == [];
    assert Substitute([], t0, ids) == Ok(Filling(t0, map[]));
    assert Substitute([c], t0, ids) == Ok(Filling("Larry met Bob", map["a" := [0, 1]]));
  }

  /** An id outside the phrase list is recorded, and its placeholder
      becomes the text "undefined". */
  lemma UndefinedExample()
    ensures var pool := Pool(["[a]!"], [Category("a", ["Larry"])]);
            ValidPool(pool) &&
            CreateDrama(pool, Some(Selection(0, map["a" := [7]])))
            == Ok(Drama(Selection(0, map["a" := [7]]), "undefined!"))
  {
    var c := Category("a", ["Larry"]);
    var p := Placeholder("a");
    assert p == "[a]";
    assert "[a]!"[0..3] == p;
    FirstPlaceholderAt("[a]!", "a", 0);
    assert Phrase(["Larry"], 7) == "undefined";
    assert ReplaceFirst("[a]!", p, "undefined") == "undefined!";
    assert Fill("[a]!", "a", ["Larry"], [7], 1) == Filled("undefined!", [7]);
    assert [c][..0] == [];
    assert Substitute([c], "[a]!", map["a" := [7]]) == Ok(Filling("undefined!", map["a" := [7]]));
  }
}
