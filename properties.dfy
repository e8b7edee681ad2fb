/** What the substitution engine of src/index.js guarantees: the ids it
    records are a prefix of those supplied, trimming is stable (the
    permalink reproduces its own page), failures are exactly the throwing
    paths, and, for templates whose placeholders are flat `[key]` tokens,
    how many ids each key consumes. */
module DramaProperties {
  import opened Strings
  import opened Drama

  function Min(a: int, b: int): int {
    if a <= b then a else b
  }

  /** Keys and phrases without brackets: no phrase can complete or break
      a placeholder. */
  predicate PlainCategories(categories: seq<Category>) {
    forall j :: 0 <= j < |categories| ==>
      BracketFree(categories[j].key) && forall p :: p in categories[j].phrases ==> BracketFree(p)
  }

  /** A pool whose categories are plain and whose templates never open a
      '[' inside another. */
  predicate PlainPool(pool: Pool) {
    PlainCategories(pool.combinations) && forall s :: s in pool.sentences ==> WellNested(s)
  }

  // ---------------------------------------------------------------------
  // One key: the inner loop

  /** Once `[key]` no longer occurs, later ids change neither the message
      nor the recorded list. */
  lemma {:induction false} FillStaysDone(message: string, key: string, phrases: seq<string>, ids: seq<int>, j: nat, n: nat)
    requires j <= n <= |ids|
    requires !Contains(Fill(message, key, phrases, ids, j).message, Placeholder(key))
    ensures Fill(message, key, phrases, ids, n) == Fill(message, key, phrases, ids, j)
    decreases n
  {
    if j < n {
      FillStaysDone(message, key, phrases, ids, j, n - 1);
    }
  }

  /** The inner loop reads only the ids it gets to. */
  lemma {:induction false} FillSamePrefix(message: string, key: string, phrases: seq<string>, ids: seq<int>, ids2: seq<int>, n: nat)
    requires n <= |ids| && n <= |ids2|
    requires forall i :: 0 <= i < n ==> ids[i] == ids2[i]
    ensures Fill(message, key, phrases, ids2, n) == Fill(message, key, phrases, ids, n)
    decreases n
  {
    if n > 0 {
      FillSamePrefix(message, key, phrases, ids, ids2, n - 1);
      assert ids[n - 1] == ids2[n - 1];
    }
  }

  /** Stopping after the ids that were recorded changes nothing. */
  lemma {:induction false} FillStopsAtConsumed(message: string, key: string, phrases: seq<string>, ids: seq<int>, n: nat)
    requires n <= |ids|
    ensures Fill(message, key, phrases, ids, |Fill(message, key, phrases, ids, n).consumed|) == Fill(message, key, phrases, ids, n)
    decreases n
  {
    if n > 0 {
      var prev := Fill(message, key, phrases, ids, n - 1);
      if !Contains(prev.message, Placeholder(key)) {
        FillStopsAtConsumed(message, key, phrases, ids, n - 1);
      }
    }
  }

  /** Running the inner loop again on the ids it recorded gives the same
      message and the same record. */
  lemma FillTrim(message: string, key: string, phrases: seq<string>, ids: seq<int>)
    ensures var r := Fill(message, key, phrases, ids, |ids|);
            Fill(message, key, phrases, r.consumed, |r.consumed|) == r
  {
    var r := Fill(message, key, phrases, ids, |ids|);
    FillSamePrefix(message, key, phrases, ids, r.consumed, |r.consumed|);
    FillStopsAtConsumed(message, key, phrases, ids, |ids|);
  }

  /** Phrases without brackets, and the text "undefined", have none. */
  lemma PhraseBracketFree(phrases: seq<string>, id: int)
    requires forall p :: p in phrases ==> BracketFree(p)
    ensures BracketFree(Phrase(phrases, id))
  {
    if 0 <= id < |phrases| {
      assert phrases[id] in phrases;
    }
  }

  /** With k occurrences of `[key]` in a well-nested message and n ids,
      exactly min(k, n) ids are recorded, each removes one `[key]`, the
      counts of the other placeholders do not change, and the message
      stays well-nested. */
  lemma {:induction false} FillCounts(message: string, key: string, phrases: seq<string>, ids: seq<int>, n: nat)
    requires n <= |ids|
    requires WellNested(message) && BracketFree(key)
    requires forall p :: p in phrases ==> BracketFree(p)
    ensures WellNested(Fill(message, key, phrases, ids, n).message)
    ensures |Fill(message, key, phrases, ids, n).consumed| == Min(CountOcc(message, Placeholder(key)), n)
    ensures CountOcc(Fill(message, key, phrases, ids, n).message, Placeholder(key))
            == CountOcc(message, Placeholder(key)) - |Fill(message, key, phrases, ids, n).consumed|
    ensures forall w :: BracketFree(w) && w != key ==>
              CountOcc(Fill(message, key, phrases, ids, n).message, Placeholder(w)) == CountOcc(message, Placeholder(w))
    decreases n
  {
    if n > 0 {
      FillCounts(message, key, phrases, ids, n - 1);
      FillStep(message, key, phrases, ids, n);
      var prev := Fill(message, key, phrases, ids, n - 1);
      CountPositive(prev.message, Placeholder(key));
      if Contains(prev.message, Placeholder(key)) {
        PhraseBracketFree(phrases, ids[n - 1]);
        ReplaceFirstAllCounts(prev.message, key, Phrase(phrases, ids[n - 1]));
      }
    }
  }

  // ---------------------------------------------------------------------
  // All keys: the outer loop

  /** Only the keys of `combinations` matter: two selections that agree
      on them give the same result, whatever else they carry. */
  lemma {:induction false} SubstituteIgnoresOtherKeys(categories: seq<Category>, template: string, ids: map<string, seq<int>>, ids2: map<string, seq<int>>)
    requires forall k :: k in Keys(categories) ==> (k in ids <==> k in ids2) && (k in ids ==> ids[k] == ids2[k])
    ensures Substitute(categories, template, ids2) == Substitute(categories, template, ids)
    decreases |categories|
  {
    if categories != [] {
      var prefix := categories[..|categories| - 1];
      assert Keys(prefix) <= Keys(categories);
      assert categories[|categories| - 1].key in Keys(categories);
      SubstituteIgnoresOtherKeys(prefix, template, ids, ids2);
    }
  }

  /** A selection that has an id list for every key never fails,
      whatever its ids are: an id out of range is not an error. */
  lemma {:induction false} SubstituteSucceeds(categories: seq<Category>, template: string, ids: map<string, seq<int>>)
    requires Keys(categories) <= ids.Keys
    ensures Substitute(categories, template, ids).Ok?
    decreases |categories|
  {
    if categories != [] {
      var prefix := categories[..|categories| - 1];
      assert Keys(prefix) <= Keys(categories);
      assert categories[|categories| - 1].key in Keys(categories);
      SubstituteSucceeds(prefix, template, ids);
    }
  }

  /** Replaying with any selection that carries the recorded lists
      reproduces the result: trimming loses nothing. */
  lemma {:induction false} SubstituteReplay(categories: seq<Category>, template: string, ids: map<string, seq<int>>, ids2: map<string, seq<int>>)
    requires DistinctKeys(categories)
    requires Substitute(categories, template, ids).Ok?
    requires forall k :: k in Substitute(categories, template, ids).value.used ==>
               k in ids2 && ids2[k] == Substitute(categories, template, ids).value.used[k]
    ensures Substitute(categories, template, ids2) == Substitute(categories, template, ids)
    decreases |categories|
  {
    if categories != [] {
      var prefix := categories[..|categories| - 1];
      var c := categories[|categories| - 1];
      var f := Substitute(prefix, template, ids).value;
      assert c.key !in Keys(prefix) by {
        forall d | d in prefix ensures d.key != c.key {
          var i :| 0 <= i < |prefix| && prefix[i] == d;
          assert categories[i] == d;
        }
      }
      SubstituteReplay(prefix, template, ids, ids2);
      if Contains(f.message, Placeholder(c.key)) {
        FillTrim(f.message, c.key, c.phrases, ids[c.key]);
      }
    }
  }

  /** The facts the outer loop keeps about a plain template `template`
      after the categories `categories`, with `f` its state. */
  ghost predicate Accounted(categories: seq<Category>, template: string, ids: map<string, seq<int>>, f: Filling) {
    && WellNested(f.message)
    && (forall j :: 0 <= j < |categories| ==>
          (categories[j].key in f.used <==> Contains(template, Placeholder(categories[j].key))))
    && (forall j :: 0 <= j < |categories| && categories[j].key in f.used ==>
          categories[j].key in ids &&
          |f.used[categories[j].key]| == Min(CountOcc(template, Placeholder(categories[j].key)), |ids[categories[j].key]|))
    && (forall j :: 0 <= j < |categories| ==>
          CountOcc(f.message, Placeholder(categories[j].key))
          == CountOcc(template, Placeholder(categories[j].key))
             - (if categories[j].key in f.used then |f.used[categories[j].key]| else 0))
    && (forall w :: BracketFree(w) && w !in Keys(categories) ==>
          CountOcc(f.message, Placeholder(w)) == CountOcc(template, Placeholder(w)))
  }

  /** The last key of `categories` is not a key of the ones before it. */
  lemma LastKeyIsNew(categories: seq<Category>)
    requires |categories| > 0 && DistinctKeys(categories)
    ensures categories[|categories| - 1].key !in Keys(categories[..|categories| - 1])
    ensures Keys(categories) == Keys(categories[..|categories| - 1]) + {categories[|categories| - 1].key}
  {
    var n := |categories| - 1;
    assert forall j :: 0 <= j < n ==> categories[..n][j] == categories[j];
  }

  /** A round whose placeholder no longer occurs keeps the accounting. */
  lemma AccountedSkip(categories: seq<Category>, template: string, ids: map<string, seq<int>>, f: Filling)
    requires |categories| > 0 && DistinctKeys(categories) && PlainCategories(categories)
    requires Accounted(categories[..|categories| - 1], template, ids, f)
    requires f.used.Keys <= Keys(categories[..|categories| - 1])
    requires !Contains(f.message, Placeholder(categories[|categories| - 1].key))
    ensures Accounted(categories, template, ids, f)
  {
    var n := |categories| - 1;
    var p := Placeholder(categories[n].key);
    assert forall j :: 0 <= j < n ==> categories[..n][j] == categories[j];
    LastKeyIsNew(categories);
    assert CountOcc(f.message, p) == CountOcc(template, p);
    CountPositive(template, p);
    CountPositive(f.message, p);
  }

  /** The accounting after a round that fills the placeholder of the last
      key, from what `FillCounts` says about the round. */
  lemma AccountedAfterFill(categories: seq<Category>, template: string, ids: map<string, seq<int>>, f: Filling,
                           message: string, consumed: seq<int>)
    requires |categories| > 0 && DistinctKeys(categories) && PlainCategories(categories)
    requires Accounted(categories[..|categories| - 1], template, ids, f)
    requires f.used.Keys <= Keys(categories[..|categories| - 1])
    requires categories[|categories| - 1].key in ids
    requires Contains(template, Placeholder(categories[|categories| - 1].key))
    requires CountOcc(f.message, Placeholder(categories[|categories| - 1].key))
             == CountOcc(template, Placeholder(categories[|categories| - 1].key))
    requires WellNested(message)
    requires |consumed| == Min(CountOcc(f.message, Placeholder(categories[|categories| - 1].key)),
                               |ids[categories[|categories| - 1].key]|)
    requires CountOcc(message, Placeholder(categories[|categories| - 1].key))
             == CountOcc(f.message, Placeholder(categories[|categories| - 1].key)) - |consumed|
    requires forall w :: BracketFree(w) && w != categories[|categories| - 1].key ==>
               CountOcc(message, Placeholder(w)) == CountOcc(f.message, Placeholder(w))
    ensures Accounted(categories, template, ids, Filling(message, f.used[categories[|categories| - 1].key := consumed]))
  {
    var n := |categories| - 1;
    var c := categories[n];
    var used := f.used[c.key := consumed];
    assert forall j :: 0 <= j < n ==> categories[..n][j] == categories[j];
    LastKeyIsNew(categories);
    forall j | 0 <= j < n
      ensures categories[j].key in used <==> categories[j].key in f.used
      ensures categories[j].key in used ==> used[categories[j].key] == f.used[categories[j].key]
      ensures CountOcc(message, Placeholder(categories[j].key)) == CountOcc(f.message, Placeholder(categories[j].key))
    {
      assert categories[j].key != c.key;
    }
  }

  /** A round that fills the placeholder records min(k, m) ids for the
      new key and removes that many placeholders; the other placeholders
      keep their counts. */
  lemma AccountedFill(categories: seq<Category>, template: string, ids: map<string, seq<int>>, f: Filling)
    requires |categories| > 0 && DistinctKeys(categories) && PlainCategories(categories)
    requires Accounted(categories[..|categories| - 1], template, ids, f)
    requires f.used.Keys <= Keys(categories[..|categories| - 1])
    requires Contains(f.message, Placeholder(categories[|categories| - 1].key))
    requires categories[|categories| - 1].key in ids
    ensures var c := categories[|categories| - 1];
            var filled := Fill(f.message, c.key, c.phrases, ids[c.key], |ids[c.key]|);
            Accounted(categories, template, ids, Filling(filled.message, f.used[c.key := filled.consumed]))
  {
    var n := |categories| - 1;
    var c := categories[n];
    var p := Placeholder(c.key);
    assert forall j :: 0 <= j < n ==> categories[..n][j] == categories[j];
    LastKeyIsNew(categories);
    assert CountOcc(f.message, p) == CountOcc(template, p);
    CountPositive(template, p);
    CountPositive(f.message, p);
    FillCounts(f.message, c.key, c.phrases, ids[c.key], |ids[c.key]|);
    var filled := Fill(f.message, c.key, c.phrases, ids[c.key], |ids[c.key]|);
    AccountedAfterFill(categories, template, ids, f, filled.message, filled.consumed);
  }

  /** One round of the outer loop keeps the accounting. */
  lemma AccountedStep(categories: seq<Category>, template: string, ids: map<string, seq<int>>)
    requires |categories| > 0 && DistinctKeys(categories) && PlainCategories(categories)
    requires Substitute(categories[..|categories| - 1], template, ids).Ok?
    requires Accounted(categories[..|categories| - 1], template, ids, Substitute(categories[..|categories| - 1], template, ids).value)
    requires Substitute(categories, template, ids).Ok?
    ensures Accounted(categories, template, ids, Substitute(categories, template, ids).value)
  {
    var n := |categories| - 1;
    var f := Substitute(categories[..n], template, ids).value;
    if Contains(f.message, Placeholder(categories[n].key)) {
      AccountedFill(categories, template, ids, f);
    } else {
      AccountedSkip(categories, template, ids, f);
    }
  }

  /** For a plain pool, after every key of `categories` each key has
      recorded min(k, m) ids for its k occurrences in the template and m
      supplied ids, and the message has lost exactly that many
      placeholders. */
  lemma {:induction false} SubstituteAccounts(categories: seq<Category>, template: string, ids: map<string, seq<int>>)
    requires DistinctKeys(categories) && PlainCategories(categories) && WellNested(template)
    ensures Substitute(categories, template, ids).Ok? ==> Accounted(categories, template, ids, Substitute(categories, template, ids).value)
    decreases |categories|
  {
    if categories != [] {
      var n := |categories| - 1;
      assert DistinctKeys(categories[..n]) && PlainCategories(categories[..n]);
      SubstituteAccounts(categories[..n], template, ids);
      if Substitute(categories, template, ids).Ok? {
        AccountedStep(categories, template, ids);
      }
    }
  }

  /** For a plain pool, the outer loop fails exactly when some key whose
      placeholder occurs in the template has no id list. */
  lemma {:induction false} SubstituteFailsExactly(categories: seq<Category>, template: string, ids: map<string, seq<int>>)
    requires DistinctKeys(categories) && PlainCategories(categories) && WellNested(template)
    ensures Substitute(categories, template, ids).Err? <==>
            exists j :: 0 <= j < |categories| && Contains(template, Placeholder(categories[j].key)) && categories[j].key !in ids
    decreases |categories|
  {
    if categories != [] {
      var n := |categories| - 1;
      var prefix, c := categories[..n], categories[n];
      assert forall j :: 0 <= j < n ==> prefix[j] == categories[j];
      assert DistinctKeys(prefix) && PlainCategories(prefix);
      SubstituteFailsExactly(prefix, template, ids);
      SubstituteAccounts(prefix, template, ids);
      if Substitute(prefix, template, ids).Ok? {
        var p := Placeholder(c.key);
        LastKeyIsNew(categories);
        var f := Substitute(prefix, template, ids).value;
        assert CountOcc(f.message, p) == CountOcc(template, p);
        CountPositive(template, p);
        CountPositive(f.message, p);
      }
    }
  }

  // ---------------------------------------------------------------------
  // createDramaMessage and handleDrama

  /** The permalink: feeding `usedDramaIds` back in reproduces the same
      message and the same `usedDramaIds`. */
  lemma PermalinkReproduces(pool: Pool, decoded: Option<Selection>)
    requires ValidPool(pool) && CreateDrama(pool, decoded).Ok?
    ensures CreateDrama(pool, Some(CreateDrama(pool, decoded).value.used)) == CreateDrama(pool, decoded)
  {
    var sel := decoded.value;
    var template := pool.sentences[sel.sentence];
    SubstituteReplay(pool.combinations, template, sel.ids, CreateDrama(pool, decoded).value.used.ids);
  }

  /** The page behind a drama page's permalink is that same page. */
  lemma PermalinkPageIsStable(pool: Pool, decoded: Option<Selection>)
    requires ValidPool(pool) && HandleDrama(pool, decoded).DramaPage?
    ensures HandleDrama(pool, Some(HandleDrama(pool, decoded).permalink)) == HandleDrama(pool, decoded)
  {
    PermalinkReproduces(pool, decoded);
  }

  /** Keys the pool does not declare are ignored. */
  lemma ExtraKeysIgnored(pool: Pool, sentence: int, ids: map<string, seq<int>>, extra: map<string, seq<int>>)
    requires ValidPool(pool)
    requires extra.Keys !! Keys(pool.combinations)
    ensures CreateDrama(pool, Some(Selection(sentence, ids + extra))) == CreateDrama(pool, Some(Selection(sentence, ids)))
  {
    if 0 <= sentence < |pool.sentences| {
      SubstituteIgnoresOtherKeys(pool.combinations, pool.sentences[sentence], ids, ids + extra);
    }
  }

  /** A selection with a sentence in range and an id list for every key
      is always rendered, even when some ids are out of range. */
  lemma CompleteSelectionSucceeds(pool: Pool, sel: Selection)
    requires ValidPool(pool)
    requires 0 <= sel.sentence < |pool.sentences| && Keys(pool.combinations) <= sel.ids.Keys
    ensures CreateDrama(pool, Some(sel)).Ok?
  {
    SubstituteSucceeds(pool.combinations, pool.sentences[sel.sentence], sel.ids);
  }

  /** What generateRandomDrama produces is always rendered, and each
      recorded list holds at most four ids, all in range. */
  lemma GeneratedSelectionSucceeds(pool: Pool, sel: Selection)
    requires ValidPool(pool) && Overprovisioned(pool, sel)
    ensures CreateDrama(pool, Some(sel)).Ok?
    ensures forall j :: 0 <= j < |pool.combinations| && pool.combinations[j].key in CreateDrama(pool, Some(sel)).value.used.ids ==>
              var used := CreateDrama(pool, Some(sel)).value.used.ids[pool.combinations[j].key];
              |used| <= 4 && forall id :: id in used ==> 0 <= id < |pool.combinations[j].phrases|
  {
    CompleteSelectionSucceeds(pool, sel);
    var used := CreateDrama(pool, Some(sel)).value.used.ids;
    forall j | 0 <= j < |pool.combinations| && pool.combinations[j].key in used
      ensures |used[pool.combinations[j].key]| <= 4
      ensures forall id :: id in used[pool.combinations[j].key] ==> 0 <= id < |pool.combinations[j].phrases|
    {
      var k := pool.combinations[j].key;
      assert used[k] == sel.ids[k][..|used[k]|];
      assert forall id :: id in used[k] ==> id in sel.ids[k];
    }
  }

  /** Every failure ends at the not-found page, and for a plain pool the
      failures are exactly: an undecodable segment, a sentence out of
      range, or a key whose placeholder occurs in the sentence but whose
      id list is missing. */
  lemma NotFoundExactly(pool: Pool, decoded: Option<Selection>)
    requires ValidPool(pool) && PlainPool(pool)
    ensures HandleDrama(pool, decoded).NotFoundPage? <==>
            || decoded.None?
            || !(0 <= decoded.value.sentence < |pool.sentences|)
            || exists j :: 0 <= j < |pool.combinations|
                 && Contains(pool.sentences[decoded.value.sentence], Placeholder(pool.combinations[j].key))
                 && pool.combinations[j].key !in decoded.value.ids
  {
    if decoded.Some? && 0 <= decoded.value.sentence < |pool.sentences| {
      var template := pool.sentences[decoded.value.sentence];
      assert template in pool.sentences;
      SubstituteFailsExactly(pool.combinations, template, decoded.value.ids);
    }
  }

  /** For a plain pool, each key of `combinations` appears in
      `usedDramaIds` exactly when its placeholder occurs in the chosen
      sentence; with k occurrences and m supplied ids it records the
      first min(k, m) of them; and the message keeps k - min(k, m)
      occurrences, so none when m >= k. */
  lemma PlaceholdersAccounted(pool: Pool, sel: Selection)
    requires ValidPool(pool) && PlainPool(pool)
    requires CreateDrama(pool, Some(sel)).Ok?
    ensures forall j :: 0 <= j < |pool.combinations| ==>
              var k, d := pool.combinations[j].key, CreateDrama(pool, Some(sel)).value;
              var t := pool.sentences[sel.sentence];
              && (k in d.used.ids <==> Contains(t, Placeholder(k)))
              && (k in d.used.ids ==>
                    k in sel.ids &&
                    d.used.ids[k] == sel.ids[k][..Min(CountOcc(t, Placeholder(k)), |sel.ids[k]|)] &&
                    CountOcc(d.message, Placeholder(k)) == CountOcc(t, Placeholder(k)) - Min(CountOcc(t, Placeholder(k)), |sel.ids[k]|))
              && (k !in d.used.ids ==> !Contains(d.message, Placeholder(k)))
              && (k in d.used.ids && |sel.ids[k]| >= CountOcc(t, Placeholder(k)) ==> !Contains(d.message, Placeholder(k)))
  {
    var t := pool.sentences[sel.sentence];
    assert t in pool.sentences;
    SubstituteAccounts(pool.combinations, t, sel.ids);
    var f := Substitute(pool.combinations, t, sel.ids).value;
    forall j | 0 <= j < |pool.combinations|
      ensures pool.combinations[j].key !in f.used ==> !Contains(f.message, Placeholder(pool.combinations[j].key))
      ensures pool.combinations[j].key in f.used && |sel.ids[pool.combinations[j].key]| >= CountOcc(t, Placeholder(pool.combinations[j].key))
              ==> !Contains(f.message, Placeholder(pool.combinations[j].key))
    {
      var k := pool.combinations[j].key;
      CountPositive(t, Placeholder(k));
      CountPositive(f.message, Placeholder(k));
    }
  }
}

/** handleApi: a fresh random selection, its message, and the permalink
    built from what the message used. */
module Api {
  import opened Strings
  import opened Drama
  import opened DramaProperties

  /** handleApi: the generated selection, the response text and the
      permalink of `/api/generate`. The selection is overprovisioned, the
      response and the permalink are what createDramaMessage makes of it,
      and the permalink leads back to the same text. */
  method GenerateApi(pool: Pool) returns (drama: Selection, response: string, permalink: Selection)
    requires ValidPool(pool)
    requires |pool.sentences| > 0
    requires forall j :: 0 <= j < |pool.combinations| ==> |pool.combinations[j].phrases| > 0
    ensures Overprovisioned(pool, drama)
    ensures CreateDrama(pool, Some(drama)) == Ok(Drama(permalink, response))
    ensures HandleDrama(pool, Some(permalink)) == DramaPage(response, permalink)
  {
    drama := GenerateRandomDrama(pool);
    GeneratedSelectionSucceeds(pool, drama);
    var dramaMessage := CreateDramaMessage(pool, Some(drama));
    response, permalink := dramaMessage.value.message, dramaMessage.value.used;
    PermalinkReproduces(pool, Some(drama));
  }
}
