/**
 * The blueprint as the writer sees it (backend/app/api/routers/writer.py:108-130):
 * relationship entries renamed to `from`/`to`, and chapter-level keys
 * removed so that scenes and dialogue are not sent twice.
 */
module Blueprint {
  import opened JsonValues

  /** Lines 117-125. */
  const BannedKeys: set<string> := {
    "chapter_outline", "chapter_summaries", "chapter_details", "chapter_dialogues",
    "chapter_events", "conversation_history", "character_timelines"
  }

  /**
   * Lines 113-116 for one relationship object: `character_from` moves to
   * `from` and `character_to` to `to`, overwriting what was there.
   */
  function RenameRelation(rel: map<string, Json>): (r: map<string, Json>)
    ensures "character_from" !in r && "character_to" !in r
    ensures "character_from" in rel ==> "from" in r && r["from"] == rel["character_from"]
    ensures "character_to" in rel ==> "to" in r && r["to"] == rel["character_to"]
    ensures forall k :: k in rel && k !in {"character_from", "character_to", "from", "to"} ==> k in r && r[k] == rel[k]
    ensures forall k :: k in r ==> k in rel || (k == "from" && "character_from" in rel) || (k == "to" && "character_to" in rel)
    ensures "from" in rel && "character_from" !in rel ==> "from" in r && r["from"] == rel["from"]
    ensures "to" in rel && "character_to" !in rel ==> "to" in r && r["to"] == rel["to"]
  {
    var afterFrom := if "character_from" in rel then (rel - {"character_from"})["from" := rel["character_from"]] else rel;
    if "character_to" in afterFrom then (afterFrom - {"character_to"})["to" := afterFrom["character_to"]] else afterFrom
  }

  /** A relationship entry after the renaming; an entry that is not an object is left as it is. */
  function RenameEntry(entry: Json): Json {
    if entry.Object? then Object(RenameRelation(entry.fields)) else entry
  }

  /** The whole edit at lines 111-130, as a function of the dumped blueprint. */
  function Cleaned(blueprint: map<string, Json>): (r: map<string, Json>)
    ensures r.Keys == blueprint.Keys - BannedKeys
    ensures forall k :: k in r && k != "relationships" ==> r[k] == blueprint[k]
    ensures "relationships" in blueprint && blueprint["relationships"].Array? ==>
      && r["relationships"].Array?
      && |r["relationships"].items| == |blueprint["relationships"].items|
      && forall i :: 0 <= i < |r["relationships"].items| ==>
           r["relationships"].items[i] == RenameEntry(blueprint["relationships"].items[i])
    ensures "relationships" in blueprint && !blueprint["relationships"].Array? ==>
      r["relationships"] == blueprint["relationships"]
  {
    var renamed :=
      if "relationships" in blueprint && blueprint["relationships"].Array? && blueprint["relationships"].items != []
      then
        var items := blueprint["relationships"].items;
        blueprint["relationships" := Array(seq(|items|, i requires 0 <= i < |items| => RenameEntry(items[i])))]
      else blueprint;
    renamed - BannedKeys
  }

  lemma RenameRelationIdempotent(rel: map<string, Json>)
    ensures RenameRelation(RenameRelation(rel)) == RenameRelation(rel)
  {
  }

  /** Cleaning a cleaned blueprint changes nothing. */
  lemma CleanedIdempotent(blueprint: map<string, Json>)
    ensures Cleaned(Cleaned(blueprint)) == Cleaned(blueprint)
  {
    var once := Cleaned(blueprint);
    var twice := Cleaned(once);
    if "relationships" in once && once["relationships"].Array? {
      var items := once["relationships"].items;
      forall i | 0 <= i < |items|
        ensures RenameEntry(items[i]) == items[i]
      {
        if items[i].Object? {
          var orig := blueprint["relationships"].items[i];
          RenameRelationIdempotent(orig.fields);
        }
      }
      assert twice["relationships"].items == items;
    }
    assert twice.Keys == once.Keys;
  }

  /**
   * Lines 111-130: the relationship entries are renamed in place, then the
   * banned keys are popped one by one.
   */
  method CleanBlueprint(blueprint: map<string, Json>) returns (cleaned: map<string, Json>)
    ensures cleaned == Cleaned(blueprint)
  {
    cleaned := blueprint;
    if "relationships" in cleaned && cleaned["relationships"].Array? && cleaned["relationships"].items != [] {
      var relations := cleaned["relationships"].items;
      var renamed: seq<Json> := [];
      for i := 0 to |relations|
        invariant |renamed| == i
        invariant forall k :: 0 <= k < i ==> renamed[k] == RenameEntry(relations[k])
      {
        var relation := relations[i];
        if relation.Object? {
          var fields := relation.fields;
          if "character_from" in fields {
            var value := fields["character_from"];
            fields := (fields - {"character_from"})["from" := value];
          }
          if "character_to" in fields {
            var value := fields["character_to"];
            fields := (fields - {"character_to"})["to" := value];
          }
          relation := Object(fields);
        }
        renamed := renamed + [relation];
      }
      assert renamed == seq(|relations|, i requires 0 <= i < |relations| => RenameEntry(relations[i]));
      cleaned := cleaned["relationships" := Array(renamed)];
    }
    ghost var renamedAll := cleaned;
    var remaining := BannedKeys;
    while remaining != {}
      invariant remaining <= BannedKeys
      invariant cleaned == renamedAll - (BannedKeys - remaining)
      decreases |remaining|
    {
      var key :| key in remaining;
      if key in cleaned {
        cleaned := cleaned - {key};
      }
      remaining := remaining - {key};
    }
    assert BannedKeys - remaining == BannedKeys;
  }
}
