# Sonos network core, modelled in Dafny

This project models the core of the PHP library `duncan3dc/sonos`: the logic that turns raw network answers into objects callers use. It has six parts.

- **Device discovery** (`discovery.dfy`, `DeviceCollection`):
  - the SSDP M-SEARCH probe;
  - parsing the collected search responses into reply blocks and header maps;
  - the ZonePlayer filter;
  - de-duplication by USN;
  - a duplicate-free address list that is written through to a cache;
  - the cache-or-discover logic of `getDevices`.
- **The network** (`network.dfy`, `Network`):
  - the join of the device list with the topology map, keyed by host;
  - the memoised speaker list and its reset;
  - coordinators as controllers;
  - lookups by room, IP and group;
  - the memoised playlists and alarms.
- **The name lookup** (`lookup.dfy`), shared by playlists, radio stations and radio shows: the first exact match, else the last case-insensitive match.
- **Radio favourites** (`radio.dfy`, `Services/Radio`): the ObjectID and tag chosen by favourite type, the streams read from a Browse result, and the lookup by name.
- **Track factory** (`factory.dfy`): the ordered prefix classifier for URIs, and the `createFromUri` / `createFromXml` dispatch.
- **Google tracks** (`google2.dfy`): URI normalisation and the metadata id.
- **The time value** (`time.dfy`, `time_examples.dfy`), as `tests/Utils/TimeTest.php` pins it down:
  - `FromInt` and `FromString`;
  - `asInt`, `asString` and `format`.
  - `time_examples.dfy` states each assertion of that test as a lemma.

`text.dfy` models the PHP string built-ins the core uses: `strtolower`, `trim`, `strpos`, `explode`/`implode` and decimal printing. `seqs.dfy` holds list helpers. `wrappers.dfy` holds `Option`, `Result` and the error kinds.

The model's inputs stand in for I/O and for calls into code outside the core:

- `response` is the text collected from the discovery socket.
- `hostOf` is `parse_url(...)["host"]`.
- `Env` holds the device list and the topology's ZonePlayer attributes.
- `fetched` holds the lists the SOAP calls return.
- `urlencode` and `Helper::TRACK_HASH` are parameters.
- The Spotify, Google and Deezer `PREFIX` constants are parameters (`Factory.Prefixes`).

Methods that change state are proved against specification functions:
- `Scan`, `HeaderMap` and `ParseBlocks` for discovery;
- `TopologyMap`, `Join`, `SpeakersStep`, `Controllers`, `InRoom`, `ControllerByRoom` and `ControllerByIp` for the network;
- `NameMatch` for the lookup.

The lemmas then state what those functions mean.

Behaviour of the code worth noting, which the model follows:

- The rough-match fallback keeps the **last** case-insensitive hit, not the first (src/Network.php:391-393, src/Services/Radio.php:102-104).
- Room lookups are exact-match only (src/Network.php:215, 235). There is no case-insensitive fallback.
- Nothing checks how many coordinators a group has. A speaker with no coordinator in its group simply has no controller (src/Network.php:281-285).
- A speaker device missing from the topology is an error: `getSpeakers` throws (src/Network.php:162-164).
- The address list is ordered and duplicate-free, and new addresses go at its end (src/DeviceCollection.php:188-189).
- A reply without a USN header is not skipped (src/DeviceCollection.php:171). `in_array` compares loosely, so a missing USN (null) behaves like "".

## Model

| member | source | states |
|---|---|---|
| Discovery.ParseLineSpec | src/DeviceCollection.php:155-161 | A line is ignored exactly when it has no ':' or begins with one. Otherwise the key is the lower-cased text before the first ':', which is lower-case, and the value is the trimmed rest. |
| Discovery.HeaderMapKeys | src/DeviceCollection.php:154-162 | The keys of a reply's header map are exactly the keys that some line of the reply sets. |
| Discovery.HeaderMapLowerCase | src/DeviceCollection.php:159 | Every key of a header map is lower-case, whatever case the reply used. |
| Discovery.HeaderMapLastWins | src/DeviceCollection.php:161 | The value kept for a key is the one on the last line that sets it (a later duplicate overwrites). |
| Discovery.HeaderMapValuesTrimmed | src/DeviceCollection.php:160 | Every header value is trimmed. |
| Discovery.ParseBlocksAppend | src/DeviceCollection.php:149-164 | Reply blocks are parsed independently and in order: parsing `a + b` gives the results for `a`, then those for `b`. |
| Discovery.ParseBlocksOne | src/DeviceCollection.php:149-163 | A falsy block ("" or "0") yields nothing; any other block yields exactly its header map. |
| Discovery.DeviceCollection.ParseReplies | src/DeviceCollection.php:148-164 | The parsing loops produce one header map per non-falsy "\r\n\r\n" block, in order. |
| Discovery.DeviceCollection.ParseHeaders | src/DeviceCollection.php:154-162 | The inner loop builds the header map of one reply. |
| Discovery.ProbeLinesNoCr | src/DeviceCollection.php:123-127 | No line of the probe holds a carriage return. |
| Discovery.ProbeSplit | src/DeviceCollection.php:123-127 | The probe is the request line and the HOST, MAN, MX and ST headers, in that order, each ending in "\r\n". |
| Discovery.ProbeHostParses | src/DeviceCollection.php:124 | The HOST header value is the address followed by ":reservedSSDPport". |
| Discovery.ProbeHeaders | src/DeviceCollection.php:123-127 | Read back with the reply parser, the probe yields host, man = ssdp:discover, mx = 1 and st = the ZonePlayer type, and nothing else. |
| Discovery.ScanShape | src/DeviceCollection.php:166-180 | The USNs seen are distinct. At most one host is taken per USN. When the loop runs to the end, every ZonePlayer reply's USN has been seen. |
| Discovery.ScanFirstWins | src/DeviceCollection.php:168-179 | Each USN is taken from the first ZonePlayer reply that carries it, and its host comes from that reply. A later reply with the same USN is ignored, whatever its location. |
| Discovery.ScanStops | src/DeviceCollection.php:178-179 | Once addIp has been given a null host (a thrown TypeError), later replies change nothing. |
| Discovery.Cache.Contains | src/DeviceCollection.php:57 | True exactly when the key is stored. |
| Discovery.Cache.Fetch | src/DeviceCollection.php:59 | The stored list, or None for a missing key. |
| Discovery.Cache.Save | src/DeviceCollection.php:190 | The key is set to the value; nothing else changes. |
| Discovery.DeviceCollection.AddIp | src/DeviceCollection.php:186-194 | A known address changes nothing, not even the cache. A new address is appended, and the whole list is saved under CACHE_KEY. The list stays duplicate-free. |
| Discovery.DeviceCollection.DiscoverDevices | src/DeviceCollection.php:148-183 | The addresses become the old list extended by the hosts of first-seen ZonePlayer USNs. The cache is written exactly when the list changed. The list stays distinct, and failure means a null host. |
| Discovery.DeviceCollection.GetDevices | src/DeviceCollection.php:54-71 | A non-empty list is used as is. An empty list is loaded from the cache when the key is there, and otherwise discovered. The result is one Device per address, in list order. |
| Discovery.DeviceCollection.DevicesOf | src/DeviceCollection.php:65-68 | One Device per address, in order. |
| Discovery.DeviceCollection.Clear | src/DeviceCollection.php:197-202 | The address list is emptied; the cache is untouched. |
| Discovery.ReloadAfterClear | src/DeviceCollection.php:54-63 | After discovery finds addresses, `clear` then `getDevices` gives the same devices, reloaded from the cache. |
| Seqs.AppendAllNewSpec | src/DeviceCollection.php:188-189 | Appending only new elements keeps a list duplicate-free and keeps its old prefix. The elements are exactly the old ones plus the added ones. |
| Seqs.AppendAllNewUnchanged | src/DeviceCollection.php:188 | The list is unchanged exactly when every added element was already present. |
| Network.TopologyMapKeys | src/Network.php:148-152 | A host is a topology key exactly when some player's location has it. |
| Network.TopologyMapLast | src/Network.php:148-152 | The entry for a host is the last player whose location has that host. |
| Network.Network.BuildTopology | src/Network.php:142-152 | The topology loop builds the topology map. |
| Network.PutSpeakerSpec | src/Network.php:168 | `$speakers[$ip] = $speaker` appends a new key or replaces in place. Every speaker with another key survives. |
| Network.JoinOk | src/Network.php:155-164 | The join succeeds exactly when every speaker device's IP is in the topology. Non-speakers are never looked up. |
| Network.JoinKeys | src/Network.php:155-168 | Speakers have distinct IPs. After success, their IPs are the speaker devices' IPs in order of first appearance. |
| Network.JoinEntries | src/Network.php:160-166 | Each speaker carries the topology entry of its own IP. |
| Network.JoinStops | src/Network.php:162-164 | After a missed speaker, later devices change nothing (the throw). |
| Network.SpeakersStepComplete | src/Network.php:126-172 | A memo only ever holds a complete resolution. With no devices the answer is NoDevicesFound. Success implies every speaker device is in the topology. |
| Network.Network.GetSpeakers | src/Network.php:126-172 | The corrected getSpeakers: a memo is answered as is. An empty device list fails with the memo unset. A speaker missing from the topology fails. The memo is set only on success. |
| Network.Network.GetSpeakersAsWritten | src/Network.php:126-172 | getSpeakers as written: the memo is set to [] before the join, so a failure leaves a partial list memoised. |
| Network.SpeakersStepsAgree | src/Network.php:154-169 | As written and corrected agree whenever resolution succeeds or a memo exists. |
| Network.PartialMemoAsWritten | src/Network.php:154-164 | As written, a failed first call makes the second call answer with the partial speaker list. Corrected, it fails again. |
| Network.Network.ClearTopology | src/Network.php:180-185 | The speaker memo is unset; playlists and alarms are kept. |
| Network.Controllers | src/Network.php:249-262 | The controllers are exactly the coordinator speakers, so there is none exactly when no speaker is a coordinator. |
| Network.Network.GetControllers | src/Network.php:249-262 | The loop computes the controllers of the resolved speakers. |
| Network.FirstControllerSpec | src/Network.php:195-201 | getController gives the controller of the first coordinator, or null when there is none. |
| Network.Network.GetController | src/Network.php:195-201 | getController over the resolved speakers. |
| Network.InRoom | src/Network.php:229-241 | The speakers in a room are exactly those whose room name is equal to it. |
| Network.RoomLookupsAgree | src/Network.php:211-241 | getSpeakerByRoom is the first element of getSpeakersByRoom, or null when that is empty. |
| Network.Network.GetSpeakerByRoom | src/Network.php:211-219 | The first speaker whose room is exactly `room`. |
| Network.Network.GetSpeakersByRoom | src/Network.php:229-241 | Every speaker whose room is exactly `room`, in order. |
| Network.FirstOfGroup | src/Network.php:281-285 | The controller found has the group. None is found exactly when no controller has it. |
| Network.Network.FindGroup | src/Network.php:281-285 | The loop finds the first controller of the group. |
| Network.ControllerByRoomSpec | src/Network.php:272-286 | No speaker in the room gives null. Otherwise the result is a coordinator of that speaker's group, found exactly when the group has one. |
| Network.Network.GetControllerByRoom | src/Network.php:272-286 | getControllerByRoom over the resolved speakers. |
| Network.ControllerByIpSpec | src/Network.php:296-310 | An IP that is not a speaker key is an error. Otherwise the result is a coordinator sharing that speaker's group, found exactly when the group has one. |
| Network.Network.GetControllerByIp | src/Network.php:296-310 | getControllerByIp over the resolved speakers. |
| Network.Network.FindSpeaker | src/Network.php:299-303 | The speaker keyed by the IP, if any. |
| Network.OneCoordinatorGroup | src/Network.php:249-286 | Two speakers of group G1, one a coordinator, give one controller of group G1, and the other speaker's room resolves to it. |
| Network.Network.GetPlaylists | src/Network.php:318-345 | A memoised list is answered as is. Otherwise a controller is required, and the fetched list is memoised. |
| Network.Network.HasPlaylist | src/Network.php:357-370 | True exactly when the name lookup finds a playlist. The memos change as getPlaylists changes them. |
| Network.Network.GetPlaylistByName | src/Network.php:382-399 | The name lookup over the playlists, so it is non-null exactly when hasPlaylist is true. The memos change as getPlaylists changes them. |
| Network.Network.CreatePlaylistAsWritten | src/Network.php:427-445 | createPlaylist as written: the new playlist is appended, and on an unset memo it becomes the whole memo. |
| Network.Network.CreatePlaylist | src/Network.php:427-445 | The corrected createPlaylist: the new playlist is appended to a memoised list, and an unset memo stays unset. |
| Network.AppendPlaylistKeeps | src/Network.php:442 | Corrected append: no memoised playlist is lost, and the new one is added at the end. |
| Network.HiddenPlaylistAsWritten | src/Network.php:442 | As written, creating "New" with nothing memoised hides "Mix" from the name lookup. Corrected, the memo stays unset, and the list fetched next, which holds "Mix", finds it. |
| Network.Network.GetAlarms | src/Network.php:453-468 | A memoised list is answered as is. Otherwise the list is fetched through the controller, and a null controller is an error. |
| Network.AlarmWithId | src/Network.php:481-485 | The alarm found has the id. None exactly when no alarm has it. |
| Network.Network.FindAlarm | src/Network.php:481-485 | The loop finds the first alarm with the id. |
| Network.Network.GetAlarmById | src/Network.php:476-486 | A memoised list is searched and nothing changes. Otherwise the call fails exactly when getAlarms fails, with the same error, and succeeds with the first fetched alarm with the id. All three memos are stated. |
| Lookup.LastRough | src/Network.php:391-393 | The index of the last case-insensitive match, or None when there is none. |
| Lookup.NameMatchSpec | src/Network.php:382-399 | Something is found exactly when some name matches up to case. What is found matches. An exact match wins. |
| Lookup.NameMatchFirstExact | src/Network.php:387-390 | The first exact match is returned. |
| Lookup.NameMatchLastRough | src/Network.php:391-398 | With no exact match, the last case-insensitive match is returned. |
| Lookup.FindByName | src/Network.php:382-399 | The loop with early return and `$roughMatch` computes the lookup. |
| Lookup.HasMatch | src/Network.php:357-370 | The loop is true exactly when the lookup finds something. |
| Radio.ObjectIdNamesKind | src/Services/Radio.php:53 | "R:0/{$type}" begins with "R:0/", the type reads back from it, and different types give different ObjectIDs. |
| Radio.TagName | src/Services/Radio.php:62 | The tag is "item" exactly for STATIONS, and "container" for every other type. |
| Radio.Tagged | src/Services/Radio.php:63 | `getTags` gives only elements with that tag, taken from the result. |
| Radio.Favourites | src/Services/Radio.php:48-70 | One Stream per tagged element, in document order. |
| Radio.FavouritesSpec | src/Services/Radio.php:63-67 | A stream is a favourite exactly when some tagged element gives it, pairing res and title. |
| Radio.FavouriteNamed | src/Services/Radio.php:93-110 | Found exactly when a name matches up to case, and an exact match wins. With no match the function falls off the end, which is an error. |
| Radio.GetFavouriteStation | src/Services/Radio.php:93-110 | The station found is an `<item>` whose title matches up to case. It is the name lookup's answer over the stations: the first exact match, else the last case-insensitive one. The lookup fails exactly when none matches. |
| Radio.GetFavouriteShow | src/Services/Radio.php:133-150 | The same rule over the `<container>` elements: the name lookup's answer over the shows, failing exactly when no title matches up to case. |
| Radio.ExistsTaggedNamed | src/Services/Radio.php:63-67 | Some favourite matches a name exactly when some tagged element's title does. |
| Factory.SubstrStartsWith | src/Tracks/Factory.php:45 | `substr($uri, 0, strlen($p)) === $p` holds exactly when `$p` is a prefix of the URI. |
| Factory.GuessTrackClass | src/Tracks/Factory.php:37-55 | The loop over the service prefixes, then the stream test, computes the class decision. |
| Factory.TrackClassOfSpec | src/Tracks/Factory.php:39-54 | Each of the five classes holds exactly under its rule. Spotify, Google and Deezer are tried in that order, before the stream test. |
| Factory.CreateFromUri | src/Tracks/Factory.php:65-70 | The track is built from the same URI, and its class is `TrackClassOf`, the decision `TrackClassOfSpec` characterises and `GuessTrackClass` computes. Spotify and plain tracks are also stated directly. |
| Factory.CreateFromXml | src/Tracks/Factory.php:80-86 | The class is the one guessed from the `res` text, or from "" when there is no `res`. |
| Factory.MissingResIsPlain | src/Tracks/Factory.php:82 | An element without `res` gives a plain Track. |
| Google2.Normalise | src/Tracks/Google2.php:20-28 | The stored URI always begins with PREFIX, and a URI that already does is kept unchanged. |
| Google2.NormaliseIdempotent | src/Tracks/Google2.php:22-27 | Normalising twice is normalising once. |
| Google2.MetaDataId | src/Tracks/Google2.php:38-41 | The id part is a prefix of the text after PREFIX, and empty when there is no such text. It is all of that text when it holds no ".mp3", or when it begins with ".mp3", because position 0 reads as false. When the first ".mp3" is at a position k above 0, the id part is the text before k. |
| Google2.MetaData | src/Tracks/Google2.php:43-46 | The id is TRACK_HASH, UNIQUE and then the id part. The parent is "-1", the title "", the class the music-track class, and the description "38663". |
| Google2.MetaDataOfId | src/Tracks/Google2.php:23-41 | Suppose the encoder maps ":{$id}.mp3" to `e` plus ".mp3", with `e` non-empty and holding no ".mp3". Then the id part is exactly `e`. |
| Google2.MetaDataOfEmptyEncoding | src/Tracks/Google2.php:39 | Position 0 reads as false, so the ".mp3" is kept. |
| Time.Pad2 | tests/Utils/TimeTest.php:56-58 | Padded parts are digits, at least two of them. |
| Time.Pad2Value | tests/Utils/TimeTest.php:56-58 | A padded part reads back as its value. |
| Time.PartsAddUp | tests/Utils/TimeTest.php:42-71 | Minutes and seconds are under 60, and hours·3600 + minutes·60 + seconds is the time. |
| Time.FromInt | tests/Utils/TimeTest.php:42-71 | `FromInt(n).asInt()` is n. |
| Time.FromStringFields | tests/Utils/TimeTest.php:34-39 | "h:m:s" is worth h·3600 + m·60 + s. |
| Time.FromStringMinutes | tests/Utils/TimeTest.php:16-33 | "m:s" is worth m·60 + s, and an empty field counts as 0. |
| Time.FromString | tests/Utils/TimeTest.php:10-39 | Text without ':' is a number of seconds. The two- and three-field readings are stated by FromStringFields and FromStringMinutes. |
| Time.AsStringRoundTrip | tests/Utils/TimeTest.php:10-39 | Reading back what asString prints gives the same time. |
| Time.TwoDigits | tests/Utils/TimeTest.php:56-70 | Below 100, the padded part is the tens digit and then the units digit. |
| Time.PrintsDigits | tests/Utils/TimeTest.php:42-71 | asString is "HH:MM:SS" with zero-padded hours, minutes and seconds. |
| Time.Time.Format | tests/Utils/TimeTest.php:74-93 | A format without '%' is copied unchanged. Three-placeholder formats are stated by FormatThree, and "%H:%M:%S" by FormatPadded. |
| Time.Time.AsString | tests/Utils/TimeTest.php:10-71 | Split at ':', the text gives back exactly the three zero-padded parts: hours, minutes and seconds. PrintsDigits gives it digit by digit, and AsStringRoundTrip reads it back. |
| Time.FormatThree | tests/Utils/TimeTest.php:74-93 | A three-placeholder format is the parts with the two separators copied between them. |
| Time.FormatPadded | tests/Utils/TimeTest.php:74-78 | "%H:%M:%S" formats exactly as asString. |
| Time.PartsOf | tests/Utils/TimeTest.php:84-88 | The parts are determined by h·3600 + m·60 + s with m and s under 60, and hours are not wrapped at 24. |
| TimeExamples.FromStringExample1 | tests/Utils/TimeTest.php:10-15 | 55 gives 55 and "00:00:55". |
| TimeExamples.FromStringExample2 | tests/Utils/TimeTest.php:16-21 | ":55" gives 55 and "00:00:55". |
| TimeExamples.FromStringExample3 | tests/Utils/TimeTest.php:22-27 | "1:55" gives 115 and "00:01:55". |
| TimeExamples.FromStringExample4 | tests/Utils/TimeTest.php:28-33 | "01:00" gives 60 and "00:01:00". |
| TimeExamples.FromStringExample5 | tests/Utils/TimeTest.php:34-39 | "1:01:01" gives 3661 and "01:01:01". |
| TimeExamples.FromIntExample1 | tests/Utils/TimeTest.php:42-47 | 0 gives "00:00:00". |
| TimeExamples.FromIntExample2 | tests/Utils/TimeTest.php:48-53 | 60 gives "00:01:00". |
| TimeExamples.FromIntExample3 | tests/Utils/TimeTest.php:54-59 | 127 gives "00:02:07". |
| TimeExamples.FromIntExample4 | tests/Utils/TimeTest.php:60-65 | 3600 gives "01:00:00". |
| TimeExamples.FromIntExample5 | tests/Utils/TimeTest.php:66-71 | 3725 gives "01:02:05". |
| TimeExamples.FormatExample1 | tests/Utils/TimeTest.php:74-78 | "1:9:4" formatted with "%H/%M/%S" is "01/09/04". |
| TimeExamples.FormatExample2 | tests/Utils/TimeTest.php:79-83 | "01:05:02" formatted with "%h-%m-%s" is "1-5-2". |
| TimeExamples.FormatExample3 | tests/Utils/TimeTest.php:84-88 | "99:59:59" formatted with "%h-%m-%s" is "99-59-59". |
| TimeExamples.FormatExample4 | tests/Utils/TimeTest.php:89-93 | "00:00:00" formatted with "%h-%m-%s" is "0-0-0". |
| Text.Trim | src/DeviceCollection.php:160 | `trim` gives a middle piece with no blank at either end, and everything cut off is blank. |
| Text.TrimPadded | src/DeviceCollection.php:160 | Leading blanks are dropped from a value that is otherwise trimmed. |
| Text.LowerIsLowerCase | src/DeviceCollection.php:159 | `strtolower` gives lower-case text, is idempotent, and leaves lower-case text unchanged. |
| Text.IndexOfChar | src/DeviceCollection.php:156 | `strpos` of one character finds exactly its first position, and false when it is absent. |
| Text.SplitJoin | src/DeviceCollection.php:149 | `explode` loses nothing but the separators. |
| Text.JoinSplit | src/DeviceCollection.php:155 | Splitting a join of separator-free pieces gives the pieces back. |
| Text.SplitPieces | src/DeviceCollection.php:149 | No piece `explode` returns contains the separator. |
| Text.IntToStringValue | src/Services/Radio.php:53 | An int's decimal text reads back as the int. |
| Text.NatToStringValue | tests/Utils/TimeTest.php:79-93 | An unpadded part reads back as its value. |

## Left out

- The UDP socket work of `discoverDevices` (src/DeviceCollection.php:109-146) is I/O with a timing window. The accumulated response text is an input, and so are the multicast address and the port.
- The topology HTTP fetch and XML parsing in `getSpeakers` are not modelled. The ZonePlayer attribute maps are an input, and `parse_url(...)["host"]` is the parameter `hostOf`.
- The SOAP calls (Browse, CreateSavedQueue, ListAlarms) and their XML parsing are foreign calls. Their lists are inputs (`fetched`, `assignedId`, Radio's `Element` list).
- Browse's RequestedCount of 100 is not modelled.
- Missing `title` or `res` children in a radio favourite are not modelled. In PHP, reading a property of a missing child is an error.
- The logger and the default `Cache` construction are not modelled. The cache is a map holding only the address-list entry.
- `setNetworkInterface`, `getNetworkInterface`, `setDeviceCollection`, `getPlaylistById` and `getRadio` only store or hand over objects, so they are not modelled.
- `Speaker`, `Controller`, `Playlist`, `Alarm`, `Stream` and `Track` are reduced to the fields the core reads.
- src/Utils/Time.php is not part of this model. The time value is specified only by tests/Utils/TimeTest.php.
- src/Interfaces/Tracks-TextToSpeech.php and src/Interfaces/DeviceCollectionInterface.php are not part of this model. The first wraps md5, a TTS provider and the filesystem. The second only declares methods.
- `urlencode`, `Helper::createMetaDataXml` and `Helper::TRACK_HASH` are parameters or argument records, and are not interpreted.
- `Factory.Prefixes`: the Spotify, Google and Deezer PREFIX constants live in classes that are not part of this model, so they are parameters. This makes `TrackClassOfSpec` hold for any choice of them.
- `Text.Lower`: `strtolower` is ASCII lower-casing only. Locale-dependent and multibyte case mapping is not modelled.
- `Time.FromString`: a field's value is its leading decimal digits. The sign and leading whitespace that PHP's `(int)` also accepts are not modelled.
- `Time.FromString`: the integer 55 of testFromString1 is taken as the text "55". PHP would convert the int to that string.
- `Discovery.UsnOf`: `in_array` compares loosely. Only the null-versus-"" case is modelled. Numeric strings that PHP would also consider equal are compared as text.
- `Network.Network.GetAlarmById`: the `(int) $id` cast is not modelled, and the id is already an int.
- `Network.Network.GetControllers`, `GetController`, `GetSpeakerByRoom`, `GetSpeakersByRoom`, `GetControllerByRoom`, `GetControllerByIp`, `GetPlaylists`, `HasPlaylist`, `GetPlaylistByName`, `CreatePlaylistAsWritten`, `CreatePlaylist`, `GetAlarms` and `GetAlarmById` resolve speakers with the corrected memo (`SpeakersStep`). As written, they inherit getSpeakers' partial memo (`SpeakersStepAsWritten`): after a failed call, the next call succeeds on the partial speaker list.
- The device list in `Env` (`Network.DeviceInfo`) is an input. It is not tied to the result of `DeviceCollection.GetDevices` (`Discovery.Device`), so a MissingHost failure of discovery never reaches getSpeakers.
- Concurrency and repeated discovery windows are not modelled. Each method call is one sequential step.

## Findings

| source | as written | input that shows it | evidently intended | confidence | as-written member | corrected member |
|---|---|---|---|---|---|---|
| src/Network.php:154-164 | `$this->speakers = []` is set before the join loop that may throw, so the speakers built before the throw stay memoised | Devices "a" and "b" are both speakers, and only "a" is in the topology. The first getSpeakers throws; the second answers with "a" alone. | Memoise only after the whole join succeeded, so the second call fails again | high, not executed | Network.PartialMemoAsWritten | Network.SpeakersStepComplete |
| src/Network.php:442 | `$this->playlists[] = $playlist` on an unset memo creates a one-element list, which later getPlaylists calls answer as is | "Mix" exists on the server and nothing is memoised. After createPlaylist("New"), getPlaylistByName("Mix") is null and hasPlaylist("Mix") is false. | Append only to a memoised list, and otherwise leave the memo unset so the next call fetches everything | medium, not executed | Network.HiddenPlaylistAsWritten | Network.AppendPlaylistKeeps |
