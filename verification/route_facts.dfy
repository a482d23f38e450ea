/** Properties of the GET handlers that relate several routes, or a route
    to the way a client writes its path parameters. */
module RouteFacts {
  import opened Optional
  import opened Text
  import opened Numbers
  import opened Records
  import opened Sequences
  import opened Queries
  import opened Routes

  /** The lookup by id answers like "filter by id, then take the first". */
  lemma ByIdIsFirstOfFilter(paintings: seq<Painting>, idParam: string)
    ensures var id := ParseInt(idParam);
            var hits := Filter(paintings, id, HasPaintingId);
            PaintingById(paintings, idParam)
              == if |hits| == 0 then Message(PaintingNotFound(id)) else One(hits[0])
  {
    FindIsFirstOfFilter(paintings, ParseInt(idParam), HasPaintingId);
  }

  /** Asking for an id written in decimal finds a painting exactly when one
      has that id, and what it finds has that id. */
  lemma LookupOfWrittenId(paintings: seq<Painting>, n: int)
    ensures (PaintingById(paintings, ShowInt(n)).One?
             <==> exists i :: 0 <= i < |paintings| && paintings[i].paintingID == n)
    ensures PaintingById(paintings, ShowInt(n)).One? ==> PaintingById(paintings, ShowInt(n)).item.paintingID == n
  {
    ParsesAs(n);
  }

  /** A non-numeric id matches nothing: each id route answers with its
      message, carrying `NaN`, rather than failing. */
  lemma UnparsableIdFindsNothing(paintings: seq<Painting>, idParam: string)
    requires ParseInt(idParam) == None
    ensures PaintingById(paintings, idParam) == Message(PaintingNotFound(None))
    ensures PaintingsByGallery(paintings, idParam) == Message(NoPaintingsForGallery(None))
    ensures PaintingsByArtist(paintings, idParam) == Message(NoPaintingsForArtist(None))
  {
  }

  /** A non-numeric year bound matches nothing. */
  lemma UnparsableYearFindsNothing(paintings: seq<Painting>, minParam: string, maxParam: string)
    requires ParseInt(minParam) == None || ParseInt(maxParam) == None
    ensures PaintingsBetween(paintings, minParam, maxParam)
              == Message(NoPaintingsBetween(ParseInt(minParam), ParseInt(maxParam)))
  {
  }

  /** A range whose lower bound exceeds its upper bound is empty. */
  lemma InvertedYearsFindNothing(paintings: seq<Painting>, minParam: string, maxParam: string)
    requires ParseInt(minParam).Some? && ParseInt(maxParam).Some?
    requires ParseInt(minParam).value > ParseInt(maxParam).value
    ensures PaintingsBetween(paintings, minParam, maxParam).Message?
  {
  }

  /** Once both bounds parse, the year route keeps exactly the paintings
      with `lo <= yearOfWork <= hi`, both ends included, in their original
      order. */
  lemma YearsBetweenParsedBounds(paintings: seq<Painting>, minParam: string, maxParam: string, lo: int, hi: int)
    requires ParseInt(minParam) == Some(lo) && ParseInt(maxParam) == Some(hi)
    ensures var r := PaintingsBetween(paintings, minParam, maxParam);
            && (r.Message? <==> forall i :: 0 <= i < |paintings| ==> !(lo <= paintings[i].yearOfWork <= hi))
            && (r.Data? ==> forall p :: p in r.items <==> p in paintings && lo <= p.yearOfWork <= hi)
            && (r.Data? ==> Selects(paintings, YearRange(Some(lo), Some(hi)), MadeWithin, r.items))
  {
    var range := YearRange(Some(lo), Some(hi));
    var r := PaintingsBetween(paintings, minParam, maxParam);
    assert AnswersFilter(r, paintings, range, MadeWithin, NoPaintingsBetween(Some(lo), Some(hi)));
    if r.Data? {
      SelectsIffFilter(paintings, range, MadeWithin, r.items);
      forall p | p in paintings && lo <= p.yearOfWork <= hi
        ensures p in r.items
      {
        var i :| 0 <= i < |paintings| && paintings[i] == p;
        assert MadeWithin(range, paintings[i]);
      }
    }
  }

  /** `text` occurs somewhere in the lower-cased title of `p`. */
  ghost predicate TitleHasSubstring(text: string, p: Painting)
  {
    exists k :: OccursAt(Lower(p.title), text, k)
  }

  lemma TitleIncludesMeaning(text: string, p: Painting)
    ensures TitleIncludes(text, p) <==> TitleHasSubstring(text, p)
  {
    IncludesIffOccurs(Lower(p.title), text);
  }

  /** Title search is substring search: a painting is kept exactly when the
      lower-cased query occurs somewhere in its lower-cased title. */
  lemma TitleSearchIsSubstringSearch(paintings: seq<Painting>, textParam: string)
    ensures var r := PaintingsByTitle(paintings, textParam);
            r.Message? <==> forall i :: 0 <= i < |paintings| ==> !TitleHasSubstring(Lower(textParam), paintings[i])
    ensures var r := PaintingsByTitle(paintings, textParam);
            r.Data? ==> forall p :: p in r.items <==> p in paintings && TitleHasSubstring(Lower(textParam), p)
  {
    var text := Lower(textParam);
    var r := PaintingsByTitle(paintings, textParam);
    assert AnswersFilter(r, paintings, text, TitleIncludes, NoTitleMatch(text));
    forall i | 0 <= i < |paintings|
      ensures TitleIncludes(text, paintings[i]) <==> TitleHasSubstring(text, paintings[i])
    {
      TitleIncludesMeaning(text, paintings[i]);
    }
    if r.Data? {
      SelectsIffFilter(paintings, text, TitleIncludes, r.items);
      forall p | p in r.items
        ensures p in paintings && TitleHasSubstring(text, p)
      {
        TitleIncludesMeaning(text, p);
      }
      forall p | p in paintings && TitleHasSubstring(text, p)
        ensures p in r.items
      {
        TitleIncludesMeaning(text, p);
        var i :| 0 <= i < |paintings| && paintings[i] == p;
      }
    }
  }

  /** An empty search text is contained in every title, so the title route
      then answers with the whole dataset, as the fetch-all route does. */
  lemma EmptyTitleMatchesEverything(paintings: seq<Painting>)
    requires |paintings| > 0
    ensures PaintingsByTitle(paintings, "") == AllPaintings(paintings)
  {
    forall i | 0 <= i < |paintings|
      ensures TitleIncludes("", paintings[i])
    {
      IncludesEmpty(Lower(paintings[i].title));
    }
    FilterKeepsAll(paintings, "", TitleIncludes);
  }

  /** The string routes do not see the case of their parameter: two
      parameters that differ only in the case of their letters get the
      same answer. */
  lemma SearchesIgnoreCase(paintings: seq<Painting>, artists: seq<Artist>, galleries: seq<Gallery>, a: string, b: string)
    requires SameIgnoringCase(a, b)
    ensures PaintingsByTitle(paintings, a) == PaintingsByTitle(paintings, b)
    ensures PaintingsByColor(paintings, a) == PaintingsByColor(paintings, b)
    ensures ArtistsByCountry(artists, a) == ArtistsByCountry(artists, b)
    ensures GalleriesByCountry(galleries, a) == GalleriesByCountry(galleries, b)
  {
    LowerAlikeIffSameIgnoringCase(a, b);
  }

  /** A decimal numeral parses to the number it shows. */
  lemma ParsesAs(n: int)
    ensures ParseInt(ShowInt(n)) == Some(n)
  {
    ParseShowRoundTrip(n, []);
    assert ShowInt(n) + [] == ShowInt(n);
  }

  /** A filtering route over a one-record dataset. */
  lemma FilterResponseSingleton<Q, T>(x: T, q: Q, keep: (Q, T) -> bool, why: NotFound)
    ensures FilterResponse([x], q, keep, why) == if keep(q, x) then Data([x]) else Message(why)
  {
    assert Filter([x], q, keep) == if keep(q, x) then [x] else [];
  }

  /** Colour search compares whole names while title search looks for
      substrings: for a painting titled "The Red Room" whose only dominant
      colour is "Dark Red", the query "red" finds it by title but not by
      colour, and "DARK red" finds it by colour. */
  lemma ColorSearchIsWholeName(p: Painting)
    requires p.title == "The Red Room"
    requires p.details.annotation.dominantColors == [Color("Dark Red")]
    ensures PaintingsByTitle([p], "red") == Data([p])
    ensures PaintingsByColor([p], "red") == Message(NoColorMatch("red"))
    ensures PaintingsByColor([p], "DARK red") == Data([p])
  {
    assert Lower("red") == "red";
    assert TitleIncludes("red", p) by {
      assert Lower("The Red Room")[4..7] == "red";
      assert OccursAt(Lower("The Red Room"), "red", 4);
      IncludesIffOccurs(Lower("The Red Room"), "red");
    }
    FilterResponseSingleton(p, "red", TitleIncludes, NoTitleMatch("red"));
    assert !HasColorNamed("red", p) by {
      assert |Lower("Dark Red")| != |"red"|;
    }
    FilterResponseSingleton(p, "red", HasColorNamed, NoColorMatch("red"));
    assert Lower("DARK red") == "dark red";
    assert HasColorNamed("dark red", p) by {
      assert Lower("Dark Red") == "dark red";
      assert Lower(p.details.annotation.dominantColors[0].name) == "dark red";
    }
    FilterResponseSingleton(p, "dark red", HasColorNamed, NoColorMatch("dark red"));
  }

  /** A worked example with one painting (id 1, "The Starry Night", 1889),
      with the numbers written into the paths in decimal: it is found by
      id 1, by the range 1880-1890 and by the text "starry", while id 9999
      gives the message. */
  lemma StarryNightScenario(p: Painting)
    requires p.paintingID == 1 && p.title == "The Starry Night" && p.yearOfWork == 1889
    ensures PaintingById([p], ShowInt(1)) == One(p)
    ensures PaintingsBetween([p], ShowInt(1880), ShowInt(1890)) == Data([p])
    ensures PaintingsByTitle([p], "starry") == Data([p])
    ensures PaintingById([p], ShowInt(9999)) == Message(PaintingNotFound(Some(9999)))
  {
    ParsesAs(1);
    ParsesAs(9999);
    ParsesAs(1880);
    ParsesAs(1890);
    var range := YearRange(Some(1880), Some(1890));
    assert MadeWithin(range, p);
    FilterResponseSingleton(p, range, MadeWithin, NoPaintingsBetween(Some(1880), Some(1890)));
    ScenarioTitle();
    FilterResponseSingleton(p, "starry", TitleIncludes, NoTitleMatch("starry"));
  }

  lemma ScenarioTitle()
    ensures Lower("starry") == "starry"
    ensures Includes(Lower("The Starry Night"), "starry")
  {
    assert Lower("starry") == "starry";
    assert Lower("The Starry Night")[4..10] == "starry";
    assert OccursAt(Lower("The Starry Night"), "starry", 4);
    IncludesIffOccurs(Lower("The Starry Night"), "starry");
  }

  /** On empty datasets the fetch-all routes still answer with (empty) data,
      while every filtering route answers with its message. */
  lemma EmptyDatasetsContrast(param: string)
    ensures AllPaintings([]) == Data([]) && AllArtists([]) == Data([]) && AllGalleries([]) == Data([])
    ensures PaintingById([], param).Message?
    ensures PaintingsByGallery([], param).Message? && PaintingsByArtist([], param).Message?
    ensures PaintingsBetween([], param, param).Message?
    ensures PaintingsByTitle([], param).Message? && PaintingsByColor([], param).Message?
    ensures ArtistsByCountry([], param).Message? && GalleriesByCountry([], param).Message?
  {
  }
}
