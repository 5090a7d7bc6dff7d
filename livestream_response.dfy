/** The in-memory join of `fillLivestreamsResponse` (and of its twin
    `fillLivestreamsResponseWithoutTx`): livestream rows, their owners and
    their tags, fetched by three queries that are parameters here, are put
    together into response values. */
module LivestreamResponse {
  import opened Reservation

  datatype Theme = Theme(id: int, darkMode: bool)

  /** An owner as the user fill step delivers it. */
  datatype User = User(id: int, name: string, displayName: string, description: string, theme: Theme, iconHash: string)

  datatype Tag = Tag(id: int, name: string)

  /** A row of the livestream_tags / tags join. */
  datatype LivestreamTag = LivestreamTag(livestreamId: int, tagId: int, tagName: string)

  datatype Livestream = Livestream(
    id: int, owner: User, title: string, description: string, playlistUrl: string,
    thumbnailUrl: string, tags: seq<Tag>, startAt: int, endAt: int)

  datatype FillResult = Filled(livestreams: seq<Livestream>) | OwnerNotFound(livestreamId: int)

  /** Index of the last owner with the given id, or -1. */
  function LastOwnerIndex(owners: seq<User>, id: int): (j: int)
    ensures -1 <= j < |owners|
    ensures j >= 0 ==> owners[j].id == id
    ensures forall k :: j < k < |owners| ==> owners[k].id != id
  {
    if owners == [] then -1
    else if owners[|owners| - 1].id == id then |owners| - 1
    else LastOwnerIndex(owners[..|owners| - 1], id)
  }

  /** `ownersMap`: each owner under its id; a later owner with the same id
      replaces an earlier one. */
  function OwnersMap(owners: seq<User>): (m: map<int, User>)
    ensures forall id :: id in m <==> LastOwnerIndex(owners, id) >= 0
    ensures forall id :: id in m ==> m[id] == owners[LastOwnerIndex(owners, id)]
  {
    if owners == [] then map[]
    else
      var last := owners[|owners| - 1];
      var m := OwnersMap(owners[..|owners| - 1]);
      m[last.id := last]
  }

  /** An owner is found exactly when some fetched owner has the id. */
  lemma OwnerFoundIffFetched(owners: seq<User>, id: int)
    ensures id in OwnersMap(owners) <==> exists j :: 0 <= j < |owners| && owners[j].id == id
    ensures id in OwnersMap(owners) ==> OwnersMap(owners)[id].id == id
  {
  }

  /** The tags of one livestream: the join rows carrying its id, in row order. */
  function TagsOf(rows: seq<LivestreamTag>, livestreamId: int): seq<Tag> {
    if rows == [] then []
    else
      var last := rows[|rows| - 1];
      TagsOf(rows[..|rows| - 1], livestreamId) + (if last.livestreamId == livestreamId then [Tag(last.tagId, last.tagName)] else [])
  }

  /** `livestreamTagMap`, built by appending each row to its livestream's list. */
  function TagMap(rows: seq<LivestreamTag>): (r: map<int, seq<Tag>>)
    ensures forall id :: id in r <==> exists i :: 0 <= i < |rows| && rows[i].livestreamId == id
    ensures forall id :: id in r ==> r[id] != []
  {
    if rows == [] then map[]
    else
      var last := rows[|rows| - 1];
      assert forall i :: 0 <= i < |rows| - 1 ==> rows[..|rows| - 1][i] == rows[i];
      var m := TagMap(rows[..|rows| - 1]);
      m[last.livestreamId := (if last.livestreamId in m then m[last.livestreamId] else []) + [Tag(last.tagId, last.tagName)]]
  }

  /** Reading the map with Go's nil default gives exactly the livestream's
      join rows in order, the empty list when it has none. */
  lemma {:induction false} TagMapAgreesWithTagsOf(rows: seq<LivestreamTag>, livestreamId: int)
    ensures (if livestreamId in TagMap(rows) then TagMap(rows)[livestreamId] else []) == TagsOf(rows, livestreamId)
  {
    if rows != [] {
      TagMapAgreesWithTagsOf(rows[..|rows| - 1], livestreamId);
    }
  }

  function ToLivestream(m: LivestreamModel, owner: User, tags: seq<Tag>): Livestream {
    Livestream(m.id, owner, m.title, m.description, m.playlistUrl, m.thumbnailUrl, tags, m.startAt, m.endAt)
  }

  method BuildOwnersMap(owners: seq<User>) returns (ownersMap: map<int, User>)
    ensures ownersMap == OwnersMap(owners)
  {
    ownersMap := map[];
    for i := 0 to |owners|
      invariant ownersMap == OwnersMap(owners[..i])
    {
      assert owners[..i + 1][..i] == owners[..i];
      ownersMap := ownersMap[owners[i].id := owners[i]];
    }
    assert owners[..|owners|] == owners;
  }

  /** A read of the tag map with Go's nil default. */
  function TagsIn(tagMap: map<int, seq<Tag>>, livestreamId: int): seq<Tag> {
    if livestreamId in tagMap then tagMap[livestreamId] else []
  }

  method BuildTagMap(tagRows: seq<LivestreamTag>) returns (tagMap: map<int, seq<Tag>>)
    ensures forall id :: TagsIn(tagMap, id) == TagsOf(tagRows, id)
  {
    tagMap := map[];
    for i := 0 to |tagRows|
      invariant tagMap == TagMap(tagRows[..i])
    {
      assert tagRows[..i + 1][..i] == tagRows[..i];
      var row := tagRows[i];
      var sofar := if row.livestreamId in tagMap then tagMap[row.livestreamId] else [];
      tagMap := tagMap[row.livestreamId := sofar + [Tag(row.tagId, row.tagName)]];
    }
    assert tagRows[..|tagRows|] == tagRows;
    forall id ensures TagsIn(tagMap, id) == TagsOf(tagRows, id) {
      TagMapAgreesWithTagsOf(tagRows, id);
    }
  }

  /** The fill loop over the built maps: the first livestream whose owner is
      not in the map stops it; otherwise one response per livestream. */
  method FillFromMaps(models: seq<LivestreamModel>, ownersMap: map<int, User>, tagMap: map<int, seq<Tag>>)
    returns (r: FillResult)
    ensures r.OwnerNotFound? <==> exists i :: 0 <= i < |models| && models[i].userId !in ownersMap
    ensures r.OwnerNotFound? ==> exists i :: (&& 0 <= i < |models|
                                            && models[i].userId !in ownersMap
                                            && r.livestreamId == models[i].id
                                            && forall k :: 0 <= k < i ==> models[k].userId in ownersMap)
    ensures r.Filled? ==> |r.livestreams| == |models|
    ensures r.Filled? ==> forall i :: 0 <= i < |models| ==>
      r.livestreams[i] == ToLivestream(models[i], ownersMap[models[i].userId], TagsIn(tagMap, models[i].id))
  {
    var filled: seq<Livestream> := [];
    for i := 0 to |models|
      invariant |filled| == i
      invariant forall k :: 0 <= k < i ==> models[k].userId in ownersMap
      invariant forall k :: 0 <= k < i ==>
        filled[k] == ToLivestream(models[k], ownersMap[models[k].userId], TagsIn(tagMap, models[k].id))
    {
      var m := models[i];
      if m.userId !in ownersMap {
        return OwnerNotFound(m.id);
      }
      filled := filled + [ToLivestream(m, ownersMap[m.userId], TagsIn(tagMap, m.id))];
    }
    return Filled(filled);
  }

  method FillLivestreamsResponse(models: seq<LivestreamModel>, owners: seq<User>, tagRows: seq<LivestreamTag>)
    returns (r: FillResult)
    ensures models == [] ==> r == Filled([])
    ensures r.OwnerNotFound? <==> exists i :: 0 <= i < |models| && models[i].userId !in OwnersMap(owners)
    ensures r.OwnerNotFound? ==> exists i :: (&& 0 <= i < |models|
                                            && models[i].userId !in OwnersMap(owners)
                                            && r.livestreamId == models[i].id
                                            && forall k :: 0 <= k < i ==> models[k].userId in OwnersMap(owners))
    ensures r.Filled? ==> |r.livestreams| == |models|
    ensures r.Filled? ==> forall i :: 0 <= i < |models| ==>
      r.livestreams[i] == ToLivestream(models[i], OwnersMap(owners)[models[i].userId], TagsOf(tagRows, models[i].id))
  {
    if |models| == 0 {
      return Filled([]);
    }
    var ownersMap := BuildOwnersMap(owners);
    var tagMap := BuildTagMap(tagRows);
    r := FillFromMaps(models, ownersMap, tagMap);
  }
}
