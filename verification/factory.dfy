/**
  The track factory of src/Tracks/Factory.php: the class representing a URI is chosen by
  its prefix, the streaming services first (Spotify, then Google, then Deezer), then radio
  streams, and a plain Track for everything else.
 */
module Factory {
  import opened Wrappers

  /** The Track classes the factory can choose. */
  datatype TrackClass = SpotifyTrack | GoogleTrack | DeezerTrack | StreamTrack | PlainTrack

  /** The `PREFIX` constants of the Spotify, Google and Deezer classes, which are not part
      of this model and so are parameters. */
  datatype Prefixes = Prefixes(spotify: string, google: string, deezer: string)

  /** The 17 characters the factory compares against for a radio stream. */
  const STREAM_PREFIX := "x-sonosapi-stream"
  const STREAM_PREFIX_LENGTH := 17

  /** `substr($s, $start, $length)` for non-negative arguments: at most `length`
      characters from `start`, fewer when the string ends first. */
  function Substr(s: string, start: nat, length: nat): (r: string)
    ensures |r| <= length
  {
    if start >= |s| then ""
    else if start + length >= |s| then s[start..]
    else s[start..start + length]
  }

  /** `substr($uri, 0, strlen($p)) === $p` holds exactly when `$p` begins `$uri`. */
  lemma SubstrStartsWith(uri: string, p: string)
    ensures Substr(uri, 0, |p|) == p <==> p <= uri
  {
    if p <= uri && p != [] {
      assert uri[..|p|] == p;
    }
  }

  /** The services in the order they are tried. */
  function Services(p: Prefixes): seq<(string, TrackClass)> {
    [(p.spotify, SpotifyTrack), (p.google, GoogleTrack), (p.deezer, DeezerTrack)]
  }

  /** The class a URI is given, stated rule by rule: the first service whose prefix
      begins the URI, else a stream for "x-sonosapi-stream", else a plain track. */
  function TrackClassOf(uri: string, p: Prefixes): TrackClass {
    if p.spotify <= uri then SpotifyTrack
    else if p.google <= uri then GoogleTrack
    else if p.deezer <= uri then DeezerTrack
    else if STREAM_PREFIX <= uri then StreamTrack
    else PlainTrack
  }

  /** guessTrackClass: try each service's prefix in turn, returning at the first match. */
  method GuessTrackClass(uri: string, p: Prefixes) returns (c: TrackClass)
    ensures c == TrackClassOf(uri, p)
  {
    var classes := Services(p);
    for i := 0 to |classes|
      invariant forall j :: 0 <= j < i ==> !(classes[j].0 <= uri)
    {
      var (prefix, cls) := classes[i];
      SubstrStartsWith(uri, prefix);
      if Substr(uri, 0, |prefix|) == prefix {
        assert classes[0].0 == p.spotify && classes[1].0 == p.google;
        return cls;
      }
    }
    assert classes[0].0 == p.spotify && classes[1].0 == p.google && classes[2].0 == p.deezer;
    assert STREAM_PREFIX_LENGTH == |STREAM_PREFIX|;
    SubstrStartsWith(uri, STREAM_PREFIX);
    if Substr(uri, 0, STREAM_PREFIX_LENGTH) == STREAM_PREFIX {
      return StreamTrack;
    }
    return PlainTrack;
  }

  /** What the class decision means: a service wins only when no earlier service claims
      the URI, a stream only when no service does, and a plain track when nothing does. */
  lemma TrackClassOfSpec(uri: string, p: Prefixes)
    ensures TrackClassOf(uri, p) == SpotifyTrack <==> p.spotify <= uri
    ensures TrackClassOf(uri, p) == GoogleTrack <==> !(p.spotify <= uri) && p.google <= uri
    ensures TrackClassOf(uri, p) == DeezerTrack <==>
              !(p.spotify <= uri) && !(p.google <= uri) && p.deezer <= uri
    ensures TrackClassOf(uri, p) == StreamTrack <==>
              (forall s :: s in Services(p) ==> !(s.0 <= uri)) && STREAM_PREFIX <= uri
    ensures TrackClassOf(uri, p) == PlainTrack <==>
              (forall s :: s in Services(p) ==> !(s.0 <= uri)) && !(STREAM_PREFIX <= uri)
  {
    var ss := Services(p);
    assert ss[0].0 == p.spotify && ss[1].0 == p.google && ss[2].0 == p.deezer;
  }

  /** A track: the class chosen and what it was built from. */
  datatype Track = FromUri(cls: TrackClass, uri: string) | FromXml(cls: TrackClass, xml: TrackXml)

  /** The metadata element of a track: only the text of its `res` child, absent when
      the element has none, matters to the factory. */
  datatype TrackXml = TrackXml(res: Option<string>)

  /** createFromUri: `new $class($uri)` for the guessed class. */
  function CreateFromUri(uri: string, p: Prefixes): (t: Track)
    ensures t.FromUri? && t.uri == uri && t.cls == TrackClassOf(uri, p)
    ensures t.cls == SpotifyTrack <==> p.spotify <= uri
    ensures t.cls == PlainTrack <==>
              !(p.spotify <= uri) && !(p.google <= uri) && !(p.deezer <= uri) && !(STREAM_PREFIX <= uri)
  {
    TrackClassOfSpec(uri, p);
    FromUri(TrackClassOf(uri, p), uri)
  }

  /** createFromXml: the class is guessed from `(string) $xml->getTag("res")`, which is
      the empty string when there is no `res` child; the class then builds the track from
      the whole element. */
  function CreateFromXml(xml: TrackXml, p: Prefixes): (t: Track)
    ensures t.FromXml? && t.xml == xml
    ensures xml.res.Some? ==> t.cls == CreateFromUri(xml.res.value, p).cls
    ensures xml.res.None? ==> t.cls == CreateFromUri("", p).cls
  {
    FromXml(TrackClassOf(xml.res.GetOr(""), p), xml)
  }

  /** A metadata element without `res` is classed like the empty URI: a plain track unless
      some service's prefix is empty. */
  lemma MissingResIsPlain(p: Prefixes)
    requires p.spotify != "" && p.google != "" && p.deezer != ""
    ensures TrackClassOf("", p) == PlainTrack
  {
  }
}
