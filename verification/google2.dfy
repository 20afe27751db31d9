/**
  The Google track of src/Tracks/Google2.php: a Google track id is turned into a URI
  under a fixed prefix, and the metadata sent for it carries the id part of that URI.
 */
module Google2 {
  import opened Wrappers
  import opened Text

  const UNIQUE := "A0DvPDnows"
  const PREFIX := "x-sonos-http:" + UNIQUE
  const MP3 := ".mp3"
  const PARENT_ID := "-1"
  const TITLE := ""
  const UPNP_CLASS := "object.item.audioItem.musicTrack"
  const DESCRIPTION := "38663"

  /** The constructor: a string that does not begin with PREFIX is a track id and becomes
      `PREFIX . urlencode(":{$id}.mp3")`; PHP's `urlencode` is a parameter here. */
  function Normalise(uri: string, urlencode: string -> string): (r: string)
    ensures PREFIX <= r
    ensures PREFIX <= uri ==> r == uri
  {
    if PREFIX <= uri then uri else PREFIX + urlencode(":" + uri + MP3)
  }

  /** Building a track from the URI of a built track keeps that URI. */
  lemma NormaliseIdempotent(uri: string, urlencode: string -> string)
    ensures Normalise(Normalise(uri, urlencode), urlencode) == Normalise(uri, urlencode)
  {
  }

  /** The id part of getMetaData: what follows PREFIX, cut before the first ".mp3" when
      `strpos` finds it at a non-zero position (position 0 reads as false), and kept whole
      when there is no ".mp3" or it comes first. */
  function MetaDataId(uri: string): (r: string)
    ensures |uri| <= |PREFIX| ==> r == ""
    ensures |uri| > |PREFIX| ==> r <= uri[|PREFIX|..]
    ensures |uri| > |PREFIX| && MP3 <= uri[|PREFIX|..] ==> r == uri[|PREFIX|..]
    ensures |uri| > |PREFIX| && (forall k :: !OccursAt(uri[|PREFIX|..], MP3, k)) ==> r == uri[|PREFIX|..]
    ensures |uri| > |PREFIX| ==>
              forall k :: 0 < k && OccursAt(uri[|PREFIX|..], MP3, k)
                          && (forall j :: 0 <= j < k ==> !OccursAt(uri[|PREFIX|..], MP3, j)) ==>
                r == uri[|PREFIX|..][..k]
  {
    var rest := if |uri| <= |PREFIX| then "" else uri[|PREFIX|..];
    match IndexOf(rest, MP3)
    case Some(pos) => if pos > 0 then rest[..pos] else rest
    case None => rest
  }

  /** The arguments of `Helper::createMetaDataXml` (not part of this model). */
  datatype MetaDataRequest = MetaDataRequest(
    id: string, parent: string, title: string, upnpClass: string, description: string)

  /** getMetaData; `Helper::TRACK_HASH` is a parameter. */
  function MetaData(uri: string, trackHash: string): (m: MetaDataRequest)
    ensures m.parent == PARENT_ID && m.title == TITLE
    ensures m.upnpClass == UPNP_CLASS && m.description == DESCRIPTION
    ensures trackHash + UNIQUE <= m.id && m.id[|trackHash + UNIQUE|..] == MetaDataId(uri)
  {
    MetaDataRequest(trackHash + UNIQUE + MetaDataId(uri), PARENT_ID, TITLE, UPNP_CLASS, DESCRIPTION)
  }

  /** ".mp3" cannot overlap itself, so when `e` holds no ".mp3" the first one in
      `e + ".mp3"` is the appended one. */
  lemma Mp3FirstAfter(e: string)
    requires IndexOf(e, MP3) == None
    ensures IndexOf(e + MP3, MP3) == Some(|e|)
  {
    var s := e + MP3;
    assert s[|e|..|e| + |MP3|] == MP3;
    forall k | 0 <= k < |e| ensures !OccursAt(s, MP3, k) {
      if k + |MP3| <= |e| {
        assert s[k..k + |MP3|] == e[k..k + |MP3|];
        assert !OccursAt(e, MP3, k);
      } else if k + |MP3| <= |s| {
        assert s[|e|] == '.';
        assert s[k..k + |MP3|][|e| - k] == s[|e|];
        assert MP3[|e| - k] != '.';
      }
    }
    assert OccursAt(s, MP3, |e|);
    var r := IndexOf(s, MP3);
    assert r.Some?;
    assert !(r.value < |e|);
  }

  /** The metadata of a track built from an id carries the encoded id: when the encoder
      maps `":{$id}.mp3"` to `e` followed by ".mp3", with no ".mp3" inside `e`, the id part
      is exactly `e`. */
  lemma MetaDataOfId(id: string, urlencode: string -> string, e: string)
    requires !(PREFIX <= id)
    requires urlencode(":" + id + MP3) == e + MP3
    requires e != [] && IndexOf(e, MP3) == None
    ensures MetaDataId(Normalise(id, urlencode)) == e
  {
    var uri := Normalise(id, urlencode);
    assert uri == PREFIX + (e + MP3);
    assert uri[|PREFIX|..] == e + MP3;
    Mp3FirstAfter(e);
  }

  /** When the encoded id is empty, `strpos` answers 0, which PHP reads as false, and the
      ".mp3" is kept in the id part. */
  lemma MetaDataOfEmptyEncoding(id: string, urlencode: string -> string)
    requires !(PREFIX <= id)
    requires urlencode(":" + id + MP3) == MP3
    ensures MetaDataId(Normalise(id, urlencode)) == MP3
  {
    var uri := Normalise(id, urlencode);
    assert uri[|PREFIX|..] == MP3;
  }
}
