/** The selection-substitution engine of src/index.js and the random
    selection generator that feeds it.

    A "drama" is a sentence template from data.json with placeholders such
    as `[person]`, filled with phrases from the category of that name. A
    selection names a sentence and, per category, a list of phrase ids;
    `createDramaMessage` fills the template from it and records in
    `usedDramaIds` the ids it actually consumed, which is what the
    permalink carries. */
module Drama {
  import opened Strings

  /** One entry of `combinations` in data.json: a category key and its
      candidate phrases. */
  datatype Category = Category(key: string, phrases: seq<string>)

  /** The content of data.json that the engine reads: the sentence
      templates and the categories, in the order `for…in` visits them. */
  datatype Pool = Pool(sentences: seq<string>, combinations: seq<Category>)

  /** A decoded path segment (`dramaIds`), or the trimmed record built
      from it (`usedDramaIds`): a sentence index and, per category key, a
      list of phrase ids. */
  datatype Selection = Selection(sentence: int, ids: map<string, seq<int>>)

  /** The ways `createDramaMessage` throws. */
  datatype Error =
    | MalformedIdentifier      // atob or JSON.parse rejects the path segment
    | InvalidSentenceIndex     // `sentences[sentence]` is undefined, so `message.includes` throws
    | MissingIds(key: string)  // `for (const id of dramaIds[key])` over undefined throws

  datatype Result<T> = Ok(value: T) | Err(error: Error)

  /** What `createDramaMessage` returns: `usedDramaIds` and the message. */
  datatype Drama = Drama(used: Selection, message: string)

  /** The state of the inner loop for one key: the message and the ids
      pushed onto `usedDramaIds[key]` so far. */
  datatype Filled = Filled(message: string, consumed: seq<int>)

  /** The state of the outer loop: the message and the entries of
      `usedDramaIds` so far. */
  datatype Filling = Filling(message: string, used: map<string, seq<int>>)

  /** The response of `handleDrama`: the page for a message and its
      permalink, or the not-found page. */
  datatype Page = DramaPage(message: string, permalink: Selection) | NotFoundPage

  function Keys(categories: seq<Category>): set<string> {
    set j | 0 <= j < |categories| :: categories[j].key
  }

  predicate DistinctKeys(categories: seq<Category>) {
    forall i, j :: 0 <= i < j < |categories| ==> categories[i].key != categories[j].key
  }

  /** What the code takes for granted about data.json: `combinations` is
      an object, so its keys are distinct, it has at least one key (which
      makes an undefined sentence throw), and no key is `sentence`, the
      field that `usedDramaIds` reserves for the sentence index. */
  predicate ValidPool(pool: Pool) {
    && |pool.combinations| > 0
    && DistinctKeys(pool.combinations)
    && "sentence" !in Keys(pool.combinations)
  }

  /** The text that `replace` inserts for `combinations[key][id]`: the
      phrase, or "undefined" when `id` is not an index of the list. */
  function Phrase(phrases: seq<string>, id: int): string {
    if 0 <= id < |phrases| then phrases[id] else "undefined"
  }

  /** The inner loop over `dramaIds[key]`, run over its first `n` ids:
      while `[key]` occurs, each id replaces its first occurrence and is
      recorded; once it no longer occurs, the remaining ids are skipped. */
  function Fill(message: string, key: string, phrases: seq<string>, ids: seq<int>, n: nat): (r: Filled)
    requires n <= |ids|
    ensures |r.consumed| <= n && r.consumed == ids[..|r.consumed|]
    ensures |r.consumed| < n ==> !Contains(r.message, Placeholder(key))
  {
    if n == 0 then Filled(message, [])
    else
      var prev := Fill(message, key, phrases, ids, n - 1);
      var id := ids[n - 1];
      if Contains(prev.message, Placeholder(key)) then
        assert ids[..n - 1] + [id] == ids[..n];
        Filled(ReplaceFirst(prev.message, Placeholder(key), Phrase(phrases, id)), prev.consumed + [id])
      else
        prev
  }

  /** The outer loop over `combinations`, run over `categories` starting
      from `template`. A key whose placeholder does not occur when its
      turn comes is skipped; one whose placeholder occurs but has no id
      list in the selection fails. */
  function Substitute(categories: seq<Category>, template: string, ids: map<string, seq<int>>): (r: Result<Filling>)
    ensures r.Ok? ==> r.value.used.Keys <= Keys(categories)
    ensures r.Ok? ==> forall k :: k in r.value.used ==>
              k in ids && |r.value.used[k]| <= |ids[k]| && r.value.used[k] == ids[k][..|r.value.used[k]|]
    ensures r.Err? ==> r.error.MissingIds? && r.error.key in Keys(categories) && r.error.key !in ids
    decreases |categories|
  {
    if categories == [] then Ok(Filling(template, map[]))
    else
      var c := categories[|categories| - 1];
      assert categories == categories[..|categories| - 1] + [c];
      match Substitute(categories[..|categories| - 1], template, ids)
      case Err(e) => Err(e)
      case Ok(f) =>
        if !Contains(f.message, Placeholder(c.key)) then Ok(f)
        else if c.key !in ids then Err(MissingIds(c.key))
        else
          var filled := Fill(f.message, c.key, c.phrases, ids[c.key], |ids[c.key]|);
          Ok(Filling(filled.message, f.used[c.key := filled.consumed]))
  }

  /** A failure on the first `n` categories is the failure of the whole
      loop: the throw ends it. */
  lemma {:induction false} SubstituteFailureSticks(categories: seq<Category>, n: nat, template: string, ids: map<string, seq<int>>)
    requires n <= |categories|
    requires Substitute(categories[..n], template, ids).Err?
    ensures Substitute(categories, template, ids) == Substitute(categories[..n], template, ids)
    decreases |categories| - n
  {
    if n < |categories| {
      assert categories[..n + 1][..n] == categories[..n];
      SubstituteFailureSticks(categories, n + 1, template, ids);
    } else {
      assert categories[..n] == categories;
    }
  }

  /** `createDramaMessage` applied to a decoded path segment; `None`
      stands for a segment that atob or JSON.parse rejects. */
  function CreateDrama(pool: Pool, decoded: Option<Selection>): (r: Result<Drama>)
    requires ValidPool(pool)
    ensures decoded.None? ==> r == Err(MalformedIdentifier)
    ensures r.Ok? ==> decoded.Some? && 0 <= decoded.value.sentence < |pool.sentences|
    ensures r.Ok? ==> r.value.used.sentence == decoded.value.sentence
    ensures r.Ok? ==> r.value.used.ids.Keys <= Keys(pool.combinations)
  {
    match decoded
    case None => Err(MalformedIdentifier)
    case Some(sel) =>
      if !(0 <= sel.sentence < |pool.sentences|) then Err(InvalidSentenceIndex)
      else
        match Substitute(pool.combinations, pool.sentences[sel.sentence], sel.ids)
        case Err(e) => Err(e)
        case Ok(f) => Ok(Drama(Selection(sel.sentence, f.used), f.message))
  }

  /** createDramaMessage: fills the chosen sentence key by key, in the
      order of `combinations`, and records the ids it consumes. */
  method CreateDramaMessage(pool: Pool, decoded: Option<Selection>) returns (r: Result<Drama>)
    requires ValidPool(pool)
    ensures r == CreateDrama(pool, decoded)
  {
    if decoded.None? {
      return Err(MalformedIdentifier);
    }
    var dramaIds := decoded.value;
    if !(0 <= dramaIds.sentence < |pool.sentences|) {
      // `message` is undefined and the first `message.includes` throws
      return Err(InvalidSentenceIndex);
    }
    var usedIds: map<string, seq<int>> := map[];
    var message := pool.sentences[dramaIds.sentence];
    ghost var template := message;
    var categories := pool.combinations;
    var i := 0;
    while i < |categories|
      invariant 0 <= i <= |categories|
      invariant Substitute(categories[..i], template, dramaIds.ids) == Ok(Filling(message, usedIds))
    {
      assert categories[..i + 1][..i] == categories[..i];
      var key := categories[i].key;
      var phrases := categories[i].phrases;
      var placeholder := Placeholder(key);
      if !Contains(message, placeholder) {
        i := i + 1;
        continue;
      }
      if key !in dramaIds.ids {
        SubstituteFailureSticks(categories, i + 1, template, dramaIds.ids);
        return Err(MissingIds(key));
      }
      // usedDramaIds[key] = [] and the pushes of the inner loop
      var consumed;
      message, consumed := FillKey(message, key, phrases, dramaIds.ids[key]);
      usedIds := usedIds[key := consumed];
      i := i + 1;
    }
    assert categories[..i] == categories;
    return Ok(Drama(Selection(dramaIds.sentence, usedIds), message));
  }

  /** One more id: the unfolding of `Fill` the inner loop follows. */
  lemma FillStep(message: string, key: string, phrases: seq<string>, ids: seq<int>, n: nat)
    requires 0 < n <= |ids|
    ensures var prev := Fill(message, key, phrases, ids, n - 1);
            Fill(message, key, phrases, ids, n)
            == if Contains(prev.message, Placeholder(key))
               then Filled(ReplaceFirst(prev.message, Placeholder(key), Phrase(phrases, ids[n - 1])), prev.consumed + [ids[n - 1]])
               else prev
  {
  }

  /** The inner loop of createDramaMessage for one key: the message after
      it, and the ids it pushes onto `usedDramaIds[key]`. */
  method FillKey(message: string, key: string, phrases: seq<string>, list: seq<int>)
    returns (filledMessage: string, consumed: seq<int>)
    ensures Filled(filledMessage, consumed) == Fill(message, key, phrases, list, |list|)
  {
    var placeholder := Placeholder(key);
    filledMessage, consumed := message, [];
    var j := 0;
    while j < |list|
      invariant 0 <= j <= |list|
      invariant Fill(message, key, phrases, list, j) == Filled(filledMessage, consumed)
    {
      var id := list[j];
      if Contains(filledMessage, placeholder) {
        consumed := consumed + [id];
        var replacement := Phrase(phrases, id);
        filledMessage := ReplaceFirst(filledMessage, placeholder, replacement);
      }
      j := j + 1;
      FillStep(message, key, phrases, list, j);
    }
  }

  /** handleDrama: any throw of createDramaMessage becomes the not-found
      page; otherwise the page shows the message and links to the
      permalink built from `usedDramaIds`. */
  function HandleDrama(pool: Pool, decoded: Option<Selection>): (p: Page)
    requires ValidPool(pool)
    ensures p.NotFoundPage? <==> CreateDrama(pool, decoded).Err?
    ensures p.DramaPage? ==> p.permalink.ids.Keys <= Keys(pool.combinations)
  {
    match CreateDrama(pool, decoded)
    case Err(_) => NotFoundPage
    case Ok(d) => DramaPage(d.message, d.used)
  }

  // ---------------------------------------------------------------------
  // Random generation

  /** What generateRandomDrama produces: a sentence index in range and,
      for every key of `combinations` and no other key, exactly four ids,
      each an index of that key's phrase list. */
  predicate Overprovisioned(pool: Pool, sel: Selection) {
    && 0 <= sel.sentence < |pool.sentences|
    && sel.ids.Keys == Keys(pool.combinations)
    && forall j :: 0 <= j < |pool.combinations| ==>
         |sel.ids[pool.combinations[j].key]| == 4 &&
         forall id :: id in sel.ids[pool.combinations[j].key] ==> 0 <= id < |pool.combinations[j].phrases|
  }

  /** randomIndex from ./util: some index of a non-empty list. */
  method RandomIndex<T>(list: seq<T>) returns (i: int)
    requires |list| > 0
    ensures 0 <= i < |list|
  {
    i :| 0 <= i < |list|;
  }

  /** generateRandomDrama: a random sentence and four random ids for every
      category, whatever the sentence needs. */
  method GenerateRandomDrama(pool: Pool) returns (drama: Selection)
    requires ValidPool(pool)
    requires |pool.sentences| > 0
    requires forall j :: 0 <= j < |pool.combinations| ==> |pool.combinations[j].phrases| > 0
    ensures Overprovisioned(pool, drama)
  {
    var sentence := RandomIndex(pool.sentences);
    var ids: map<string, seq<int>> := map[];
    var categories := pool.combinations;
    var i := 0;
    while i < |categories|
      invariant 0 <= i <= |categories|
      invariant ids.Keys == Keys(categories[..i])
      invariant forall j :: 0 <= j < i ==>
                  |ids[categories[j].key]| == 4 &&
                  forall id :: id in ids[categories[j].key] ==> 0 <= id < |categories[j].phrases|
    {
      var phrases := categories[i].phrases;
      var a := RandomIndex(phrases);
      var b := RandomIndex(phrases);
      var c := RandomIndex(phrases);
      var d := RandomIndex(phrases);
      assert categories[..i + 1] == categories[..i] + [categories[i]];
      ids := ids[categories[i].key := [a, b, c, d]];
      i := i + 1;
    }
    assert categories[..i] == categories;
    drama := Selection(sentence, ids);
  }
}
