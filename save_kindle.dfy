/** The Kindle highlight import endpoint (supabase/functions/save-kindle/index.ts):
    duplicate detection against the user's stored highlights, and insertion of the
    new ones in batches of 50. The database is represented by the rows it returns
    and by whether an insert of a given batch fails. */
module SaveKindle {
  import opened Base
  import opened Seqs

  /** One item of the request's `highlights` array. */
  datatype Highlight = Highlight(title: string, author: Option<string>, highlight: string)

  /** A stored save as the duplicate query returns it (`highlight, title`). */
  datatype StoredSave = StoredSave(highlight: Option<string>, title: Option<string>)

  /** A row inserted into `saves`. */
  datatype SaveRow = SaveRow(userId: string, title: string, author: Option<string>, highlight: string,
                             siteName: string, source: string)

  /** A value interpolated into a template literal: null prints as "null". */
  function Interpolated(o: Option<string>): string
  {
    if o.Some? then o.value else "null"
  }

  /** The duplicate key `${highlight}|||${title}`. */
  function Key(highlight: string, title: string): string
  {
    highlight + "|||" + title
  }

  /** The key is plain concatenation, so different pairs can share a key. */
  lemma KeyNotInjective()
    ensures ("a|||b", "c") != ("a", "b|||c")
    ensures Key("a|||b", "c") == Key("a", "b|||c")
  {
  }

  /** The keys of the user's stored saves that have a highlight. */
  function ExistingKeys(stored: seq<StoredSave>): (keys: set<string>)
    ensures forall s :: s in stored && s.highlight.Some? ==> Key(s.highlight.value, Interpolated(s.title)) in keys
    ensures forall k :: k in keys ==> exists s :: s in stored && s.highlight.Some? && k == Key(s.highlight.value, Interpolated(s.title))
  {
    set s | s in stored && s.highlight.Some? :: Key(s.highlight.value, Interpolated(s.title))
  }

  /** Exact membership of the key in the existing set decides. */
  predicate IsNew(keys: set<string>, h: Highlight)
  {
    Key(h.highlight, h.title) !in keys
  }

  function NotStored(keys: set<string>): Highlight -> bool
  {
    h => IsNew(keys, h)
  }

  function Stored(keys: set<string>): Highlight -> bool
  {
    h => !IsNew(keys, h)
  }

  /** The incoming highlights whose key is not among the stored ones, in request order. */
  function NewHighlights(keys: set<string>, highlights: seq<Highlight>): seq<Highlight>
  {
    Filter(highlights, NotStored(keys))
  }

  /** A highlight survives iff it is in the request and its key is not stored. */
  lemma NewHighlightsExactly(keys: set<string>, highlights: seq<Highlight>, h: Highlight)
    ensures h in NewHighlights(keys, highlights) <==> h in highlights && Key(h.highlight, h.title) !in keys
  {
    FilterMembership(highlights, NotStored(keys), h);
  }

  /** Incoming items are not deduplicated among themselves: a new highlight sent twice
      is kept twice. */
  lemma RepeatedHighlightKept(keys: set<string>, h: Highlight)
    requires IsNew(keys, h)
    ensures NewHighlights(keys, [h, h]) == [h, h]
  {
    assert NotStored(keys)(h);
    assert [h, h][1..] == [h];
    assert Filter([h], NotStored(keys)) == [h] + Filter([h][1..], NotStored(keys));
  }

  /** The duplicates are exactly the highlights the filter drops. */
  lemma DuplicatesCounted(keys: set<string>, highlights: seq<Highlight>)
    ensures |highlights| - |NewHighlights(keys, highlights)| == |Filter(highlights, Stored(keys))|
  {
    FilterPartition(highlights, NotStored(keys), Stored(keys));
  }

  /** The row inserted for a new highlight. */
  function ToRow(userId: string, h: Highlight): (r: SaveRow)
    ensures r.siteName == "Kindle" && r.source == "kindle"
    ensures r.userId == userId && r.title == h.title && r.highlight == h.highlight
    ensures r.author.Some? <==> Truthy(h.author)
    ensures r.author.Some? ==> r.author == h.author
  {
    SaveRow(userId, h.title, OrNull(h.author), h.highlight, "Kindle", "kindle")
  }

  function RowFor(userId: string): Highlight -> SaveRow
  {
    h => ToRow(userId, h)
  }

  const BatchSize: nat := 50

  /** `savesToInsert.slice(i, i + 50)`. */
  function Slice<T>(s: seq<T>, i: nat): (r: seq<T>)
    ensures |r| <= BatchSize
    ensures i < |s| ==> r != []
  {
    if i >= |s| then [] else if i + BatchSize <= |s| then s[i..i + BatchSize] else s[i..]
  }

  /** One batch appended to what earlier batches covered. */
  lemma SliceStep<T>(s: seq<T>, i: nat)
    requires i < |s|
    ensures |Slice(s, i)| == if i + BatchSize <= |s| then BatchSize else |s| - i
    ensures s[..i] + Slice(s, i) == s[..i + |Slice(s, i)|]
  {
  }

  /** `sent` holds the first `|sent|` batches of `saves`, in order. */
  ghost predicate Batched<T>(saves: seq<T>, sent: seq<seq<T>>)
  {
    forall k :: 0 <= k < |sent| ==> sent[k] == Slice(saves, k * BatchSize) && 0 < |sent[k]| <= BatchSize
  }

  ghost predicate NoneFailed<T>(sent: seq<seq<T>>, insertFails: seq<T> -> bool)
  {
    forall k :: 0 <= k < |sent| ==> !insertFails(sent[k])
  }

  lemma BatchedSnoc<T>(saves: seq<T>, sent: seq<seq<T>>, batch: seq<T>)
    requires Batched(saves, sent)
    requires batch == Slice(saves, |sent| * BatchSize) && 0 < |batch|
    ensures Batched(saves, sent + [batch])
  {
    var next := sent + [batch];
    forall k | 0 <= k < |next|
      ensures next[k] == Slice(saves, k * BatchSize) && 0 < |next[k]| <= BatchSize
    {
      if k < |sent| {
        assert next[k] == sent[k];
      } else {
        assert k == |sent| && next[k] == batch;
      }
    }
  }

  lemma NoneFailedSnoc<T>(sent: seq<seq<T>>, batch: seq<T>, insertFails: seq<T> -> bool)
    requires NoneFailed(sent, insertFails) && !insertFails(batch)
    ensures NoneFailed(sent + [batch], insertFails)
  {
    var next := sent + [batch];
    forall k | 0 <= k < |next|
      ensures !insertFails(next[k])
    {
      if k < |sent| {
        assert next[k] == sent[k];
      }
    }
  }

  /** The insert loop: batch after batch, stopping at the first failed insert.
      `insertFails` says whether the database rejects a batch. */
  method InsertBatches<T>(saves: seq<T>, insertFails: seq<T> -> bool) returns (sent: seq<seq<T>>, insertedCount: nat, ok: bool)
    ensures forall k :: 0 <= k < |sent| ==> sent[k] == Slice(saves, k * BatchSize) && 0 < |sent[k]| <= BatchSize
    ensures ok ==> Flatten(sent) == saves && insertedCount == |saves|
    ensures ok ==> forall k :: 0 <= k < |sent| ==> !insertFails(sent[k])
    ensures !ok ==> sent != [] && insertFails(sent[|sent| - 1]) && insertedCount < |saves|
    ensures !ok ==> (Flatten(sent[..|sent| - 1]) == saves[..insertedCount]
      && forall k :: 0 <= k < |sent| - 1 ==> !insertFails(sent[k]))
  {
    sent := [];
    insertedCount := 0;
    var i := 0;
    while i < |saves|
      invariant i == |sent| * BatchSize
      invariant i < |saves| ==> insertedCount == i
      invariant i >= |saves| ==> insertedCount == |saves|
      invariant Flatten(sent) == saves[..insertedCount]
      invariant Batched(saves, sent)
      invariant NoneFailed(sent, insertFails)
      decreases |saves| - i
    {
      var batch := Slice(saves, i);
      SliceStep(saves, i);
      FlattenSnoc(sent, batch);
      BatchedSnoc(saves, sent, batch);
      if insertFails(batch) {
        assert sent == (sent + [batch])[..|sent|];
        sent := sent + [batch];
        ok := false;
        return;
      }
      NoneFailedSnoc(sent, batch, insertFails);
      sent := sent + [batch];
      insertedCount := insertedCount + |batch|;
      i := i + BatchSize;
    }
    assert saves[..insertedCount] == saves;
    ok := true;
  }

  /** The JSON responses; the human-readable messages are not modelled. */
  datatype Response =
    | BadRequest                                   // 400
    | NothingToImport                              // imported 0
    | AllDuplicates(duplicates: nat)               // imported 0
    | Synced(imported: nat, duplicates: nat)
    | ServerError                                  // 500, the error's message only

  /** Every row of every batch is one of the rows being inserted. */
  lemma BatchItems<T>(saves: seq<T>, sent: seq<seq<T>>)
    requires forall k :: 0 <= k < |sent| ==> sent[k] == Slice(saves, k * BatchSize)
    ensures forall k, j :: 0 <= k < |sent| && 0 <= j < |sent[k]| ==> sent[k][j] in saves
  {
    forall k, j | 0 <= k < |sent| && 0 <= j < |sent[k]|
      ensures sent[k][j] in saves
    {
      assert sent[k][j] in Slice(saves, k * BatchSize);
    }
  }

  /** The request handler after CORS preflight. `highlights` is None when it is
      missing or not an array; `stored` is None when the duplicate query fails. */
  method SyncHighlights(userId: Option<string>, highlights: Option<seq<Highlight>>, stored: Option<seq<StoredSave>>,
                        insertFails: seq<SaveRow> -> bool)
    returns (resp: Response, sent: seq<seq<SaveRow>>)
    ensures !Truthy(userId) || highlights.None? ==> resp == BadRequest && sent == []
    ensures Truthy(userId) && highlights == Some([]) ==> resp == NothingToImport && sent == []
    ensures resp.AllDuplicates? ==> (Truthy(userId) && highlights.Some? && stored.Some?
      && NewHighlights(ExistingKeys(stored.value), highlights.value) == [] && resp.duplicates == |highlights.value|
      && forall h :: h in highlights.value ==> Key(h.highlight, h.title) in ExistingKeys(stored.value))
    ensures resp.Synced? ==> (Truthy(userId) && highlights.Some? && stored.Some?
      && resp.imported == |NewHighlights(ExistingKeys(stored.value), highlights.value)|
      && resp.imported + resp.duplicates == |highlights.value|
      && resp.duplicates == |Filter(highlights.value, Stored(ExistingKeys(stored.value)))|
      && Flatten(sent) == Map(NewHighlights(ExistingKeys(stored.value), highlights.value), RowFor(userId.value)))
    ensures forall k, j :: 0 <= k < |sent| && 0 <= j < |sent[k]| ==>
      (sent[k][j].siteName == "Kindle" && sent[k][j].source == "kindle" && sent[k][j].userId == userId.value)
    ensures forall k :: 0 <= k < |sent| ==> 0 < |sent[k]| <= BatchSize
    ensures resp.ServerError? ==> Truthy(userId) && highlights.Some? && highlights.value != []
    ensures Truthy(userId) && highlights.Some? && highlights.value != [] && stored.None? ==>
      resp == ServerError && sent == []
    ensures (Truthy(userId) && highlights.Some? && highlights.value != [] && stored.Some?
      && NewHighlights(ExistingKeys(stored.value), highlights.value) == []) ==>
      resp == AllDuplicates(|highlights.value|) && sent == []
    ensures (Truthy(userId) && highlights.Some? && stored.Some?
      && NewHighlights(ExistingKeys(stored.value), highlights.value) != []) ==>
      && (resp.Synced? || resp.ServerError?)
      && (resp.Synced? <==> forall k :: 0 <= k < |sent| ==> !insertFails(sent[k]))
      && (resp.ServerError? ==> sent != [] && insertFails(sent[|sent| - 1]))
    ensures Truthy(userId) && highlights.Some? && stored.Some? ==>
      forall k :: 0 <= k < |sent| ==>
        sent[k] == Slice(Map(NewHighlights(ExistingKeys(stored.value), highlights.value), RowFor(userId.value)), k * BatchSize)
    ensures resp.ServerError? ==> forall k :: 0 <= k < |sent| - 1 ==> !insertFails(sent[k])
  {
    sent := [];
    if !Truthy(userId) || highlights.None? {
      return BadRequest, sent;
    }
    var items := highlights.value;
    if |items| == 0 {
      return NothingToImport, sent;
    }
    if stored.None? {
      return ServerError, sent;
    }
    var existingSet := ExistingKeys(stored.value);
    var newHighlights := NewHighlights(existingSet, items);
    if |newHighlights| == 0 {
      forall h | h in items ensures Key(h.highlight, h.title) in existingSet {
        NewHighlightsExactly(existingSet, items, h);
      }
      return AllDuplicates(|items|), sent;
    }
    DuplicatesCounted(existingSet, items);
    var user := userId.value;
    var savesToInsert := Map(newHighlights, RowFor(user));
    var insertedCount, ok;
    sent, insertedCount, ok := InsertBatches(savesToInsert, insertFails);
    BatchItems(savesToInsert, sent);
    if !ok {
      return ServerError, sent;
    }
    var skipped := |items| - |newHighlights|;
    return Synced(insertedCount, skipped), sent;
  }
}
