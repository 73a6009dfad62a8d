/** Reading a YouTube search response: `parseResults`, `isLiveNow`, `dig` and `safeString` of
    src/core/dl/youtube_search.go.

    A JSON object is the sequence of its fields in the order in which one traversal visits them; Go
    picks that order anew for every traversal. */
module ParseResults {
  import Durations

  datatype Json =
    | Null
    | Bool(b: bool)
    | Number(n: int)
    | Str(s: string)
    | Arr(items: seq<Json>)
    | Obj(fields: seq<Field>)

  datatype Field = Field(name: string, value: Json)

  /** One step of a path: into a field or an array element. */
  datatype Step = Key(name: string) | Index(i: int)

  datatype Track = Track(
    id: string, url: string, title: string, thumbnail: string, duration: int, views: string, channel: string)

  const WATCH_URL := "https://www.youtube.com/watch?v="
  const LIVE_NOW := "BADGE_STYLE_TYPE_LIVE_NOW"

  /** Where a search response keeps its results. */
  const ROOT := [Key("contents"), Key("twoColumnSearchResultsRenderer"), Key("primaryContents"),
                 Key("sectionListRenderer"), Key("contents")]

  // ---------------------------------------------------------------- looking things up

  function Get(fields: seq<Field>, name: string): Json {
    if fields == [] then Null
    else if fields[0].name == name then fields[0].value
    else Get(fields[1..], name)
  }

  function DigStep(v: Json, p: Step): Json {
    match p
    case Key(name) => if v.Obj? then Get(v.fields, name) else Null
    case Index(i) => if v.Arr? && 0 <= i < |v.items| then v.items[i] else Null
  }

  /** The value at the end of a path, null if the path leaves the tree. */
  function Dig(v: Json, path: seq<Step>): Json
    decreases |path|
  {
    if path == [] then v else Dig(DigStep(v, path[0]), path[1..])
  }

  function SafeString(v: Json): string {
    if v.Str? then v.s else ""
  }

  lemma {:induction false} DigNull(path: seq<Step>)
    ensures Dig(Null, path) == Null
  {
    if path != [] {
      DigNull(path[1..]);
    }
  }

  method DigPath(v: Json, path: seq<Step>) returns (cur: Json)
    ensures cur == Dig(v, path)
  {
    cur := v;
    for i := 0 to |path|
      invariant Dig(cur, path[i..]) == Dig(v, path)
    {
      if cur == Null {
        DigNull(path[i..]);
        return;
      }
      cur := DigStep(cur, path[i]);
    }
  }

  predicate LiveBadge(badge: Json) {
    var meta := Dig(badge, [Key("metadataBadgeRenderer")]);
    meta.Obj? && SafeString(Get(meta.fields, "style")) == LIVE_NOW
  }

  predicate IsLive(vr: Json)
    requires vr.Obj?
  {
    var badges := Get(vr.fields, "badges");
    badges.Arr? && exists i :: 0 <= i < |badges.items| && LiveBadge(badges.items[i])
  }

  method IsLiveNow(vr: Json) returns (live: bool)
    requires vr.Obj?
    ensures live <==> IsLive(vr)
  {
    var badges := Get(vr.fields, "badges");
    if !badges.Arr? {
      return false;
    }
    for i := 0 to |badges.items|
      invariant forall k :: 0 <= k < i ==> !LiveBadge(badges.items[k])
    {
      var meta := DigPath(badges.items[i], [Key("metadataBadgeRenderer")]);
      if !meta.Obj? {
        continue;
      }
      if SafeString(Get(meta.fields, "style")) == LIVE_NOW {
        return true;
      }
    }
    return false;
  }

  // ---------------------------------------------------------------- what is to be collected

  function Id(vr: Json): string
    requires vr.Obj?
  {
    SafeString(Get(vr.fields, "videoId"))
  }

  function Title(vr: Json): string {
    SafeString(Dig(vr, [Key("title"), Key("runs"), Index(0), Key("text")]))
  }

  function Length(vr: Json): string {
    SafeString(Dig(vr, [Key("lengthText"), Key("simpleText")]))
  }

  /** A video counts if it is not live and has an id, a title and a length. */
  predicate Playable(vr: Json) {
    vr.Obj? && !IsLive(vr) && Id(vr) != "" && Title(vr) != "" && Length(vr) != ""
  }

  function TrackOf(vr: Json): Track
    requires vr.Obj?
  {
    Track(Id(vr), WATCH_URL + Id(vr), Title(vr),
          SafeString(Dig(vr, [Key("thumbnail"), Key("thumbnails"), Index(0), Key("url")])),
          Durations.Duration(Length(vr)),
          SafeString(Dig(vr, [Key("viewCountText"), Key("simpleText")])),
          SafeString(Dig(vr, [Key("ownerText"), Key("runs"), Index(0), Key("text")])))
  }

  /** The outermost video renderers of a tree, in the order of the traversal. */
  function Videos(node: Json): seq<Json> {
    match node
    case Arr(items) => VideosIn(items)
    case Obj(fields) =>
      if Get(fields, "videoRenderer").Obj? then [Get(fields, "videoRenderer")] else VideosBelow(fields)
    case _ => []
  }

  function VideosIn(items: seq<Json>): seq<Json> {
    if items == [] then [] else VideosIn(items[..|items| - 1]) + Videos(items[|items| - 1])
  }

  function VideosBelow(fields: seq<Field>): seq<Json> {
    if fields == [] then [] else VideosBelow(fields[..|fields| - 1]) + Videos(fields[|fields| - 1].value)
  }

  /** The tracks of the playable ones. */
  function Tracks(videos: seq<Json>): seq<Track> {
    if videos == [] then []
    else
      var n := |videos| - 1;
      Tracks(videos[..n]) + if Playable(videos[n]) then [TrackOf(videos[n])] else []
  }

  lemma {:induction false} TracksConcat(a: seq<Json>, b: seq<Json>)
    ensures Tracks(a + b) == Tracks(a) + Tracks(b)
  {
    if b == [] {
      assert a + b == a;
    } else {
      var n := |b| - 1;
      TracksConcat(a, b[..n]);
      assert (a + b)[..|a| + n] == a + b[..n];
    }
  }

  lemma TracksOne(v: Json)
    ensures Tracks([v]) == if Playable(v) then [TrackOf(v)] else []
  {
    assert [v][..0] == [];
  }

  /** An array is traversed element by element and an object field by field, in order, down to the
      renderers. */
  lemma TraversalOrder(a: seq<Json>, b: seq<Json>, f: seq<Field>, g: seq<Field>, v: Json, name: string)
    ensures Videos(Arr(a + b)) == Videos(Arr(a)) + Videos(Arr(b)) && Videos(Arr([v])) == Videos(v)
    ensures !Get(f + g, "videoRenderer").Obj? && !Get(f, "videoRenderer").Obj? && !Get(g, "videoRenderer").Obj? ==>
              Videos(Obj(f + g)) == Videos(Obj(f)) + Videos(Obj(g))
    ensures Videos(Obj([Field(name, v)])) == if name == "videoRenderer" && v.Obj? then [v] else Videos(v)
  {
    ItemsInOrder(a, b);
    FieldsInOrder(f, g);
    OneItem(v);
    OneField(name, v);
  }

  lemma OneItem(v: Json)
    ensures Videos(Arr([v])) == Videos(v)
  {
    assert [v][..0] == [];
    assert VideosIn([v]) == VideosIn([]) + Videos(v);
  }

  lemma OneField(name: string, v: Json)
    ensures Videos(Obj([Field(name, v)])) == if name == "videoRenderer" && v.Obj? then [v] else Videos(v)
  {
    var fields := [Field(name, v)];
    assert fields[..0] == [] && fields[1..] == [];
    assert Get(fields, "videoRenderer") == if name == "videoRenderer" then v else Get([], "videoRenderer");
    assert VideosBelow(fields) == VideosBelow([]) + Videos(v);
  }

  lemma {:induction false} ItemsInOrder(a: seq<Json>, b: seq<Json>)
    ensures VideosIn(a + b) == VideosIn(a) + VideosIn(b)
  {
    if b == [] {
      assert a + b == a;
    } else {
      var n := |b| - 1;
      ItemsInOrder(a, b[..n]);
      assert (a + b)[..|a| + n] == a + b[..n];
    }
  }

  lemma {:induction false} FieldsInOrder(f: seq<Field>, g: seq<Field>)
    ensures VideosBelow(f + g) == VideosBelow(f) + VideosBelow(g)
  {
    if g == [] {
      assert f + g == f;
    } else {
      var n := |g| - 1;
      FieldsInOrder(f, g[..n]);
      assert (f + g)[..|f| + n] == f + g[..n];
    }
  }

  // ---------------------------------------------------------------- the traversal

  /** What a collection limited to `limit` tracks holds after `more` have been offered to it. */
  function UpTo(have: seq<Track>, more: seq<Track>, limit: int): seq<Track> {
    if |have| >= limit then have
    else if |have| + |more| <= limit then have + more
    else have + more[..limit - |have|]
  }

  lemma UpToTwice(have: seq<Track>, a: seq<Track>, b: seq<Track>, limit: int)
    ensures UpTo(UpTo(have, a, limit), b, limit) == UpTo(have, a + b, limit)
  {
  }

  /** The slice the traversal appends to through a pointer. */
  class Results {
    var tracks: seq<Track>

    constructor ()
      ensures tracks == []
    {
      tracks := [];
    }

    /** Adds a video unless it is live or incomplete. */
    method AddVideo(vr: Json, limit: int)
      requires vr.Obj? && |tracks| < limit
      modifies this
      ensures tracks == UpTo(old(tracks), Tracks([vr]), limit)
    {
      TracksOne(vr);
      var live := IsLiveNow(vr);
      if live {
        return;
      }
      var title := DigPath(vr, [Key("title"), Key("runs"), Index(0), Key("text")]);
      var length := DigPath(vr, [Key("lengthText"), Key("simpleText")]);
      if Id(vr) == "" || SafeString(title) == "" || SafeString(length) == "" {
        return;
      }
      var thumbnail := DigPath(vr, [Key("thumbnail"), Key("thumbnails"), Index(0), Key("url")]);
      var views := DigPath(vr, [Key("viewCountText"), Key("simpleText")]);
      var channel := DigPath(vr, [Key("ownerText"), Key("runs"), Index(0), Key("text")]);
      var duration := Durations.ParseDuration(SafeString(length));
      tracks := tracks + [Track(Id(vr), WATCH_URL + Id(vr), SafeString(title), SafeString(thumbnail), duration,
                                SafeString(views), SafeString(channel))];
    }

    /** Adds the tracks below a node until the limit is reached. */
    method ParseResults(node: Json, limit: int)
      modifies this
      ensures tracks == UpTo(old(tracks), Tracks(Videos(node)), limit)
      decreases node
    {
      if |tracks| >= limit {
        return;
      }
      match node {
        case Arr(items) =>
          for i := 0 to |items|
            invariant tracks == UpTo(old(tracks), Tracks(VideosIn(items[..i])), limit)
          {
            if |tracks| >= limit {
              FullStays(old(tracks), items, i, limit);
              return;
            }
            ParseResults(items[i], limit);
            ItemAdded(old(tracks), items, i, limit);
          }
          assert items[..|items|] == items;
        case Obj(fields) =>
          var vr := DigPath(node, [Key("videoRenderer")]);
          assert vr == Get(fields, "videoRenderer");
          if vr.Obj? {
            AddVideo(vr, limit);
          } else {
            for i := 0 to |fields|
              invariant tracks == UpTo(old(tracks), Tracks(VideosBelow(fields[..i])), limit)
            {
              ParseResults(fields[i].value, limit);
              FieldAdded(old(tracks), fields, i, limit);
            }
            assert fields[..|fields|] == fields;
          }
        case _ =>
      }
    }
  }

  /** The result of a search: with a limit, exactly the first tracks of what it would be without. */
  method SearchResults(data: Json, limit: int) returns (tracks: seq<Track>)
    ensures var all := Tracks(Videos(Dig(data, ROOT)));
            tracks == if limit <= 0 then [] else if limit < |all| then all[..limit] else all
  {
    var root := DigPath(data, ROOT);
    var results := new Results();
    results.ParseResults(root, limit);
    tracks := results.tracks;
  }

  lemma ItemAdded(have: seq<Track>, items: seq<Json>, i: nat, limit: int)
    requires i < |items|
    ensures UpTo(UpTo(have, Tracks(VideosIn(items[..i])), limit), Tracks(Videos(items[i])), limit) ==
            UpTo(have, Tracks(VideosIn(items[..i + 1])), limit)
  {
    assert items[..i + 1][..i] == items[..i];
    TracksConcat(VideosIn(items[..i]), Videos(items[i]));
    UpToTwice(have, Tracks(VideosIn(items[..i])), Tracks(Videos(items[i])), limit);
  }

  lemma FieldAdded(have: seq<Track>, fields: seq<Field>, i: nat, limit: int)
    requires i < |fields|
    ensures UpTo(UpTo(have, Tracks(VideosBelow(fields[..i])), limit), Tracks(Videos(fields[i].value)), limit) ==
            UpTo(have, Tracks(VideosBelow(fields[..i + 1])), limit)
  {
    assert fields[..i + 1][..i] == fields[..i];
    TracksConcat(VideosBelow(fields[..i]), Videos(fields[i].value));
    UpToTwice(have, Tracks(VideosBelow(fields[..i])), Tracks(Videos(fields[i].value)), limit);
  }

  /** Once the limit is reached, the remaining items add nothing. */
  lemma {:induction false} FullStays(have: seq<Track>, items: seq<Json>, i: nat, limit: int)
    requires i <= |items| && |UpTo(have, Tracks(VideosIn(items[..i])), limit)| >= limit
    ensures UpTo(have, Tracks(VideosIn(items)), limit) == UpTo(have, Tracks(VideosIn(items[..i])), limit)
    decreases |items| - i
  {
    if i < |items| {
      ItemAdded(have, items, i, limit);
      FullStays(have, items, i + 1, limit);
    } else {
      assert items[..i] == items;
    }
  }

  /** Live and incomplete videos never make it into the results, and every result is one of the tree's
      videos. */
  lemma {:induction false} OnlyPlayable(videos: seq<Json>)
    ensures forall t :: t in Tracks(videos) ==> exists v :: v in videos && Playable(v) && TrackOf(v) == t
    ensures forall v :: v in videos && Playable(v) ==> TrackOf(v) in Tracks(videos)
  {
    if videos != [] {
      var n := |videos| - 1;
      OnlyPlayable(videos[..n]);
      assert videos == videos[..n] + [videos[n]];
    }
  }

  // ---------------------------------------------------------------- the shape of a response

  /** A video as a search response shows it; `badges` are the styles of its badges. */
  datatype Video = Video(
    id: string, title: string, thumbnail: string, length: string, views: string, channel: string, badges: seq<string>)

  function One(name: string, value: Json): Json {
    Obj([Field(name, value)])
  }

  function BadgeList(styles: seq<string>): (badges: seq<Json>)
    ensures |badges| == |styles|
    ensures forall i :: 0 <= i < |styles| ==>
              badges[i] == One("metadataBadgeRenderer", One("style", Str(styles[i])))
  {
    if styles == [] then []
    else [One("metadataBadgeRenderer", One("style", Str(styles[0])))] + BadgeList(styles[1..])
  }

  /** The fields of a video renderer; the response holds others, which are not read. */
  function Renderer(v: Video, others: seq<Field>): Json {
    Obj([Field("videoId", Str(v.id)),
         Field("title", One("runs", Arr([One("text", Str(v.title))]))),
         Field("thumbnail", One("thumbnails", Arr([One("url", Str(v.thumbnail))]))),
         Field("lengthText", One("simpleText", Str(v.length))),
         Field("viewCountText", One("simpleText", Str(v.views))),
         Field("ownerText", One("runs", Arr([One("text", Str(v.channel))]))),
         Field("badges", Arr(BadgeList(v.badges)))] + others)
  }

  lemma {:induction false} GetFirst(fields: seq<Field>, i: nat)
    requires i < |fields| && forall j :: 0 <= j < i ==> fields[j].name != fields[i].name
    ensures Get(fields, fields[i].name) == fields[i].value
  {
    if i > 0 {
      GetFirst(fields[1..], i - 1);
    }
  }

  lemma DigKey(v: Json, name: string, path: seq<Step>)
    requires v.Obj?
    ensures Dig(v, [Key(name)] + path) == Dig(Get(v.fields, name), path)
  {
    assert ([Key(name)] + path)[1..] == path;
  }

  lemma DigText(v: Json, field: string, name: string, s: string)
    requires v.Obj? && Get(v.fields, field) == One(name, Str(s))
    ensures SafeString(Dig(v, [Key(field), Key(name)])) == s
  {
    DigKey(v, field, [Key(name)]);
    DigKey(One(name, Str(s)), name, []);
    assert [Key(field), Key(name)] == [Key(field)] + [Key(name)] && [Key(name)] == [Key(name)] + [];
  }

  lemma DigRun(v: Json, field: string, list: string, name: string, s: string)
    requires v.Obj? && Get(v.fields, field) == One(list, Arr([One(name, Str(s))]))
    ensures SafeString(Dig(v, [Key(field), Key(list), Index(0), Key(name)])) == s
  {
    var run := One(name, Str(s));
    var rest := [Index(0), Key(name)];
    DigKey(v, field, [Key(list)] + rest);
    DigKey(One(list, Arr([run])), list, rest);
    DigKey(run, name, []);
    assert rest[1..] == [Key(name)] + [];
    assert Dig(Arr([run]), rest) == Dig(run, [Key(name)] + []);
    assert [Key(field), Key(list), Index(0), Key(name)] == [Key(field)] + ([Key(list)] + rest);
  }

  lemma BadgesRead(v: Json, styles: seq<string>)
    requires v.Obj? && Get(v.fields, "badges") == Arr(BadgeList(styles))
    ensures IsLive(v) <==> "BADGE_STYLE_TYPE_LIVE_NOW" in styles
  {
    var badges := BadgeList(styles);
    forall i | 0 <= i < |styles| ensures LiveBadge(badges[i]) <==> styles[i] == "BADGE_STYLE_TYPE_LIVE_NOW" {
      var path := [Key("metadataBadgeRenderer")];
      assert path[1..] == [];
      assert Dig(badges[i], path) == One("style", Str(styles[i]));
    }
  }

  /** A renderer is read field by field: it is taken exactly if no badge says it is live and its id, title
      and length are there, and then every part of the track is the part of that name. */
  lemma RendererReads(v: Video, others: seq<Field>)
    ensures var vr := Renderer(v, others);
            && (Playable(vr) <==>
                  "BADGE_STYLE_TYPE_LIVE_NOW" !in v.badges && v.id != "" && v.title != "" && v.length != "")
            && TrackOf(vr) == Track(v.id, "https://www.youtube.com/watch?v=" + v.id, v.title, v.thumbnail,
                                    Durations.Duration(v.length), v.views, v.channel)
  {
    var vr := Renderer(v, others);
    forall i | 0 <= i < 7 ensures Get(vr.fields, vr.fields[i].name) == vr.fields[i].value {
      GetFirst(vr.fields, i);
    }
    assert vr.fields[0].name == "videoId" && vr.fields[1].name == "title" && vr.fields[2].name == "thumbnail";
    assert vr.fields[3].name == "lengthText" && vr.fields[4].name == "viewCountText";
    assert vr.fields[5].name == "ownerText" && vr.fields[6].name == "badges";
    DigRun(vr, "title", "runs", "text", v.title);
    DigRun(vr, "thumbnail", "thumbnails", "url", v.thumbnail);
    DigText(vr, "lengthText", "simpleText", v.length);
    DigText(vr, "viewCountText", "simpleText", v.views);
    DigRun(vr, "ownerText", "runs", "text", v.channel);
    BadgesRead(vr, v.badges);
  }

  /** The list items that hold the videos of a page, each with whatever other fields its renderer has. */
  function Items(page: seq<(Video, seq<Field>)>): seq<Json> {
    if page == [] then []
    else
      var n := |page| - 1;
      Items(page[..n]) + [One("videoRenderer", Renderer(page[n].0, page[n].1))]
  }

  /** A search response with one section, as YouTube nests it. */
  function Response(page: seq<(Video, seq<Field>)>): Json {
    var section := One("itemSectionRenderer", One("contents", Arr(Items(page))));
    var list := One("sectionListRenderer", One("contents", Arr([section])));
    One("contents", One("twoColumnSearchResultsRenderer", One("primaryContents", list)))
  }

  /** The tracks of a page's videos: those with an id, a title and a length that are not live. */
  function Shown(page: seq<(Video, seq<Field>)>): seq<Track> {
    if page == [] then []
    else
      var v := page[|page| - 1].0;
      Shown(page[..|page| - 1]) +
      if "BADGE_STYLE_TYPE_LIVE_NOW" in v.badges || v.id == "" || v.title == "" || v.length == "" then []
      else [Track(v.id, "https://www.youtube.com/watch?v=" + v.id, v.title, v.thumbnail,
                  Durations.Duration(v.length), v.views, v.channel)]
  }

  lemma {:induction false} ItemsShown(page: seq<(Video, seq<Field>)>)
    ensures Tracks(Videos(Arr(Items(page)))) == Shown(page)
  {
    if page != [] {
      var n := |page| - 1;
      var vr := Renderer(page[n].0, page[n].1);
      ItemsShown(page[..n]);
      TraversalOrder(Items(page[..n]), [One("videoRenderer", vr)], [], [], One("videoRenderer", vr), "");
      TraversalOrder([], [], [], [], vr, "videoRenderer");
      TracksConcat(Videos(Arr(Items(page[..n]))), [vr]);
      TracksOne(vr);
      RendererReads(page[n].0, page[n].1);
    }
  }

  lemma Unwrap(name: string, v: Json, path: seq<Step>)
    ensures Dig(One(name, v), [Key(name)] + path) == Dig(v, path)
    ensures name != "videoRenderer" ==> Videos(One(name, v)) == Videos(v)
  {
    DigKey(One(name, v), name, path);
    TraversalOrder([], [], [], [], v, name);
  }

  /** A search reads back the videos of the response, in order, without the live and incomplete ones. */
  lemma SearchReadsPage(page: seq<(Video, seq<Field>)>)
    ensures Tracks(Videos(Dig(Response(page), ROOT))) == Shown(page)
  {
    var contents := One("contents", Arr(Items(page)));
    var sections := Arr([One("itemSectionRenderer", contents)]);
    var path0: seq<Step> := [];
    var path1 := [Key("contents")] + path0;
    var path2 := [Key("sectionListRenderer")] + path1;
    var path3 := [Key("primaryContents")] + path2;
    var path4 := [Key("twoColumnSearchResultsRenderer")] + path3;
    var list := One("contents", sections);
    Unwrap("contents", sections, path0);
    Unwrap("sectionListRenderer", list, path1);
    Unwrap("primaryContents", One("sectionListRenderer", list), path2);
    Unwrap("twoColumnSearchResultsRenderer", One("primaryContents", One("sectionListRenderer", list)), path3);
    Unwrap("contents", Response(page).fields[0].value, path4);
    assert ROOT == [Key("contents")] + path4;
    assert Dig(Response(page), ROOT) == sections;
    TraversalOrder([], [], [], [], One("itemSectionRenderer", contents), "");
    Unwrap("itemSectionRenderer", contents, []);
    Unwrap("contents", Arr(Items(page)), []);
    ItemsShown(page);
  }
}
