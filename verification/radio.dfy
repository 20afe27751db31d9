/**
  The TuneIn favourites of src/Services/Radio.php: a Browse of "R:0/0" (stations, listed
  as `<item>` elements) or "R:0/1" (shows, listed as `<container>` elements), each
  element becoming a Stream of its `res` and `title` texts, and a lookup by name over them.
 */
module Radio {
  import opened Wrappers
  import opened Text
  import opened Lookup

  /** The key for station types. */
  const STATIONS := 0
  /** The key for show types. */
  const SHOWS := 1
  /** What precedes the type in the Browse ObjectID. */
  const OBJECT_PREFIX := "R:0/"
  const ITEM_TAG := "item"
  const CONTAINER_TAG := "container"

  datatype Stream = Stream(uri: string, name: string)

  function StreamName(s: Stream): string { s.name }

  /** An element of the Browse result in document order: its tag name and the text of
      its `title` and `res` children. */
  datatype Element = Element(tag: string, title: string, res: string)

  /** `"R:0/{$type}"`: the container browsed for a type. */
  function ObjectId(kind: int): string {
    OBJECT_PREFIX + IntToString(kind)
  }

  /** The ObjectID names its type: the type can be read back from behind the prefix,
      so different types browse different containers. */
  lemma ObjectIdNamesKind(kind: int, other: int)
    ensures OBJECT_PREFIX <= ObjectId(kind)
    ensures IntValue(ObjectId(kind)[|OBJECT_PREFIX|..]) == Some(kind)
    ensures ObjectId(kind) == ObjectId(other) ==> kind == other
  {
    assert ObjectId(kind)[|OBJECT_PREFIX|..] == IntToString(kind);
    assert ObjectId(other)[|OBJECT_PREFIX|..] == IntToString(other);
    IntToStringValue(kind);
    IntToStringValue(other);
  }

  /** Stations are `<item>`s; every other type is read from `<container>`s. */
  function TagName(kind: int): (t: string)
    ensures t == ITEM_TAG <==> kind == STATIONS
    ensures t == CONTAINER_TAG <==> kind != STATIONS
  {
    if kind == STATIONS then ITEM_TAG else CONTAINER_TAG
  }

  /** `$parser->getTags($tagName)`: the elements with that tag, in document order. */
  function Tagged(elements: seq<Element>, tag: string): (r: seq<Element>)
    ensures |r| <= |elements|
    ensures forall e :: e in r ==> e in elements && e.tag == tag
    decreases |elements|
  {
    if elements == [] then []
    else
      var init := Tagged(elements[..|elements| - 1], tag);
      var last := elements[|elements| - 1];
      if last.tag == tag then init + [last] else init
  }

  /** `new Stream($uri, $name)` for one element. */
  function StreamOf(e: Element): Stream {
    Stream(e.res, e.title)
  }

  function Streams(es: seq<Element>): (r: seq<Stream>)
    ensures |r| == |es|
  {
    seq(|es|, i requires 0 <= i < |es| => StreamOf(es[i]))
  }

  /** getFavourites: one Stream per element carrying the type's tag, in document order. */
  method Favourites(kind: int, elements: seq<Element>) returns (items: seq<Stream>)
    ensures items == Streams(Tagged(elements, TagName(kind)))
  {
    var tagName := TagName(kind);
    items := [];
    for i := 0 to |elements|
      invariant items == Streams(Tagged(elements[..i], tagName))
    {
      var prefix, e := elements[..i + 1], elements[i];
      assert prefix[..i] == elements[..i] && prefix[i] == e;
      var before := Tagged(elements[..i], tagName);
      if e.tag == tagName {
        assert Tagged(prefix, tagName) == before + [e];
        assert Streams(before + [e]) == Streams(before) + [StreamOf(e)];
        items := items + [StreamOf(e)];
      } else {
        assert Tagged(prefix, tagName) == before;
      }
    }
    assert elements[..|elements|] == elements;
  }

  /** The favourites are exactly the streams of the elements carrying the tag. */
  lemma {:induction false} FavouritesSpec(elements: seq<Element>, tag: string, s: Stream)
    ensures s in Streams(Tagged(elements, tag)) <==>
              exists e :: e in elements && e.tag == tag && s == StreamOf(e)
    decreases |elements|
  {
    if elements != [] {
      var init := elements[..|elements| - 1];
      var last := elements[|elements| - 1];
      FavouritesSpec(init, tag, s);
      assert elements == init + [last];
      var ti := Tagged(init, tag);
      if last.tag == tag {
        assert Tagged(elements, tag) == ti + [last];
        assert Streams(ti + [last]) == Streams(ti) + [StreamOf(last)];
      }
    }
  }

  /** getFavouriteStation / getFavouriteShow: the first exact name match, else the last
      case-insensitive one; with neither, the method falls off the end of a `: Stream`
      function. */
  method FavouriteNamed(favourites: seq<Stream>, name: string) returns (r: Result<Stream>)
    ensures r.Success? <==> exists j :: 0 <= j < |favourites| && Lower(favourites[j].name) == Lower(name)
    ensures r.Success? ==> r.value in favourites && Lower(r.value.name) == Lower(name)
    ensures (exists j :: 0 <= j < |favourites| && favourites[j].name == name) ==>
              r.Success? && r.value.name == name
    ensures r.Failure? ==> r.error == NoReturnValue
    ensures r.Success? ==> Some(r.value) == NameMatch(favourites, StreamName, name)
  {
    var roughMatch := FindByName(favourites, StreamName, name);
    NameMatchSpec(favourites, StreamName, name);
    if roughMatch.Some? {
      return Success(roughMatch.value);
    }
    return Failure(NoReturnValue);
  }

  /** getFavouriteStation over the Browse result for stations. */
  method GetFavouriteStation(elements: seq<Element>, name: string) returns (r: Result<Stream>)
    ensures r.Success? ==> exists e :: e in elements && e.tag == ITEM_TAG && r.value == StreamOf(e)
    ensures r.Success? ==> Lower(r.value.name) == Lower(name)
    ensures r.Failure? <==> forall e :: e in elements && e.tag == ITEM_TAG ==> Lower(e.title) != Lower(name)
    ensures r.Success? ==> Some(r.value) == NameMatch(Streams(Tagged(elements, ITEM_TAG)), StreamName, name)
  {
    var stations := Favourites(STATIONS, elements);
    r := FavouriteNamed(stations, name);
    ExistsTaggedNamed(elements, ITEM_TAG, name);
    if r.Success? {
      FavouritesSpec(elements, ITEM_TAG, r.value);
    }
  }

  /** getFavouriteShow over the Browse result for shows. */
  method GetFavouriteShow(elements: seq<Element>, name: string) returns (r: Result<Stream>)
    ensures r.Success? ==> exists e :: e in elements && e.tag == CONTAINER_TAG && r.value == StreamOf(e)
    ensures r.Success? ==> Lower(r.value.name) == Lower(name)
    ensures r.Failure? <==> forall e :: e in elements && e.tag == CONTAINER_TAG ==> Lower(e.title) != Lower(name)
    ensures r.Success? ==> Some(r.value) == NameMatch(Streams(Tagged(elements, CONTAINER_TAG)), StreamName, name)
  {
    var shows := Favourites(SHOWS, elements);
    r := FavouriteNamed(shows, name);
    ExistsTaggedNamed(elements, CONTAINER_TAG, name);
    if r.Success? {
      FavouritesSpec(elements, CONTAINER_TAG, r.value);
    }
  }

  /** Some favourite is named `name` up to case exactly when some tagged element's title is. */
  lemma ExistsTaggedNamed(elements: seq<Element>, tag: string, name: string)
    ensures (exists j :: 0 <= j < |Streams(Tagged(elements, tag))| &&
               Lower(Streams(Tagged(elements, tag))[j].name) == Lower(name)) <==>
            (exists e :: e in elements && e.tag == tag && Lower(e.title) == Lower(name))
  {
    var fs := Streams(Tagged(elements, tag));
    if exists j :: 0 <= j < |fs| && Lower(fs[j].name) == Lower(name) {
      var j :| 0 <= j < |fs| && Lower(fs[j].name) == Lower(name);
      FavouritesSpec(elements, tag, fs[j]);
    }
    if exists e :: e in elements && e.tag == tag && Lower(e.title) == Lower(name) {
      var e :| e in elements && e.tag == tag && Lower(e.title) == Lower(name);
      FavouritesSpec(elements, tag, StreamOf(e));
      var j :| 0 <= j < |fs| && fs[j] == StreamOf(e);
      assert Lower(fs[j].name) == Lower(name);
    }
  }
}
