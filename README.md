# Bar jukebox: a Dafny model of the vote queue

The bar jukebox is a small Node.js server in front of a Kodi media player. It comes with a
browser client.

- Guests browse the media library Kodi reports.
- A guest can propose one song for the shared queue (`playlist`), or vote for one song already
  in it. The server records the one action each user may take in `votantes` (user id ↦ file).
- The queue is kept ordered by votes (`votos`), most first.
- When Kodi reports that playback stopped, the server plays the head of the queue. If the queue
  is empty, it plays a random library item that avoids the song that just finished.
- After a successful play, the users who backed that song may act again.

The model has four modules.

- `Media` (media.dfy) covers library items and the string rules applied to Kodi paths and
  labels:
  - the media-extension test;
  - stripping an extension;
  - the base name of a path;
  - the server's library ingestion.
- `Queue` (queue.dfy) covers the queue as values:
  - the stable sort by votes;
  - the ordered checks of the propose and vote handlers;
  - the voter purge after a play;
  - the random fallback;
  - the item Kodi reports as playing;
  - the sanitising of a saved state on load.
- `Server` (jukebox.dfy) has the class `Jukebox`. Its fields are the server's global state
  (`playlist`, `votantes`, `actualSonando`, the last played file and the library). Its methods
  are the handlers, and they change that state in place.
- `Client` (client.dfy) has the client's selection rules:
  - the cleaned library;
  - the filtered library list;
  - when the Propose and Vote buttons are enabled.

Conventions:

- `label` is a reserved word in Dafny, so the model calls the source's `label` field `name`.
  It calls `propuestoPor` `proposer`.
- A field that is missing, `undefined`, `null` or empty is falsy in JavaScript. All of these are
  the empty string in the model.
- Results from Kodi are parameters of the methods that consume them:
  - the outcome of `Player.Open`;
  - the `Files.GetDirectory` listing;
  - the `Player.GetItem` item;
  - the already-parsed saved state.
- The draw of `Math.random()` is a real in [0, 1).

Each handler runs to completion before the next one starts. The retry that
`reproducirSiguienteCancion` schedules after a failed or invalid queue head is
`ReproducirConReintentos`. It is a recursion that terminates because every retry runs on a
strictly shorter queue, as long as no other handler runs between the attempts.

## Model

| member | source | states |
|---|---|---|
| Media.MediaSuffixLengthMeaning | kodi_jukebox_server.js:133 | the media suffix is non-empty exactly when the string ends in "." and one of mp4, mp3, flac, ogg, m4a, wav (letters in any case), and then it is exactly that ending |
| Media.EndsFoldedMeaning | kodi_jukebox_server.js:133 | the case-insensitive ending test holds iff every one of the last characters folds to the corresponding extension letter |
| Media.Lower | script.js:80 | lower-casing keeps the length and folds each character on its own, A to Z only (see "## Left out") |
| Media.MediaSuffixLength | kodi_jukebox_server.js:133 | the length of the trailing media extension is at most the text's length; `Media.MediaSuffixLengthMeaning` says when it is positive and what it measures |
| Media.IsMediaFile | kodi_jukebox_server.js:133 | the library filter's extension test: the file ends in one of the six media extensions, in any letter case (meaning given by `Media.MediaSuffixLengthMeaning`) |
| Media.StripMediaExtension | script.js:30-31 | dropping a trailing media extension yields a prefix, and removes something exactly when the text is a media file name |
| Media.StripExtension | kodi_jukebox_server.js:135 | `replace(/\.[^/.]+$/, "")` yields a prefix; when it removes something, that is "." followed by at least one character that is neither "/" nor "."; when it removes nothing, no such ending exists |
| Media.StripExtensionRoundTrip | kodi_jukebox_server.js:135 | stripping the extension of base + "." + ext, with ext non-empty and free of "/" and ".", gives back base |
| Media.Basename | kodi_jukebox_server.js:135 | `split(/[\\/]/).pop()` is the longest suffix of the path without "/" or "\\"; any character before it is a separator |
| Media.BasenameOfJoin | kodi_jukebox_server.js:135 | the base name of dir + "/" + name is name whenever name has no separator |
| Media.StripExtensionOfMediaFile | kodi_jukebox_server.js:135 | on a media file, the generic extension rule removes exactly the media extension |
| Media.ServerLabel | kodi_jukebox_server.js:135 | the derived label is a prefix of the given label or of the file's base name |
| Media.ServerLabelStripsExtension | kodi_jukebox_server.js:135 | a given label base + "." + ext, with base non-empty and ext free of "/" and ".", becomes base |
| Media.ServerLabelFromPath | kodi_jukebox_server.js:135 | without a label, the label is the base name of the path without its extension |
| Media.BasenameOfMediaFile | kodi_jukebox_server.js:133-135 | the base name of a media file is a media file with the same extension |
| Media.IngestLibrary | kodi_jukebox_server.js:132-137 | ingestion never lengthens the listing, and every kept item has a non-empty media file |
| Media.IngestLibraryMembership | kodi_jukebox_server.js:132-137 | a file is in the ingested library iff some listing entry has it and it carries a media extension |
| Media.IngestLibrarySongs | kodi_jukebox_server.js:132-137 | an item, label and file together, is in the ingested library iff some listing entry with a media file has that file and derives that label |
| Media.IngestLibraryAppend | kodi_jukebox_server.js:132-137 | ingestion works entry by entry, so it keeps the listing order |
| Media.InLibrary | kodi_jukebox_server.js:198 | `cancionesDisponiblesServidor.some(c => c.file === file)`: some library item has the file |
| Queue.SortByVotesPermutes | kodi_jukebox_server.js:176 | the sort is a permutation of the queue |
| Queue.SortByVotesSorted | kodi_jukebox_server.js:176 | after the sort, votes never increase along the queue |
| Queue.SortByVotesStable | kodi_jukebox_server.js:176 | the sort keeps the relative order of the entries with any given vote count |
| Queue.StableSortUnique | kodi_jukebox_server.js:176 | the sort is the only vote-ordered arrangement that keeps every equal-vote group in its order |
| Queue.SortByVotesIdempotent | kodi_jukebox_server.js:176 | sorting a sorted queue changes nothing |
| Queue.SortByVotesUnique | kodi_jukebox_server.js:176 | sorting keeps the files of the queue distinct |
| Queue.SortByVotes | kodi_jukebox_server.js:176 | `sort((a, b) => b.votos - a.votos)` as an insertion sort over the entries in order; what it promises is stated by the six lemmas above |
| Queue.Queued | kodi_jukebox_server.js:197 | `playlist.some(c => c.file === file)`: some queue entry has the file |
| Queue.ProposeVerdict | kodi_jukebox_server.js:195-198 | a proposal is accepted iff label, file and user are non-empty, the user has no voter record, the file is not queued and the library has it |
| Queue.HasVoterRecord | kodi_jukebox_server.js:196 | `votantes[userId]` is truthy: the user has a record and it is not empty |
| Queue.ProposalAddsOneEntry | kodi_jukebox_server.js:199-201 | the accepted proposal's queue holds exactly the old entries plus the new one |
| Queue.ProposeKeepsFilesUnique | kodi_jukebox_server.js:197-201 | an accepted proposal keeps the files of the queue distinct |
| Queue.FindIndex | kodi_jukebox_server.js:210 | `findIndex` is -1 iff no entry has the file, and otherwise it is the first entry with it |
| Queue.AddVote | kodi_jukebox_server.js:212 | `playlist[k].votos++`: the entry at k gets one more vote; `Queue.VoteTouchesOnlyItsEntry` states its effect |
| Queue.VoteVerdict | kodi_jukebox_server.js:208-211 | a vote is accepted iff file and user are non-empty, the user has no voter record and the file is queued |
| Queue.VoteTouchesOnlyItsEntry | kodi_jukebox_server.js:210-212 | with distinct files, a vote adds one to the entry with that file and changes no other entry |
| Queue.VoteKeepsFilesUnique | kodi_jukebox_server.js:210-214 | an accepted vote keeps the files of the queue distinct |
| Queue.OneActionPerUser | kodi_jukebox_server.js:196-213 | once a user has a record, every later proposal or vote of theirs is rejected as already acted |
| Queue.VotersOf | kodi_jukebox_server.js:270 | the loop over `Object.entries(votantes)` collects exactly the users whose record is the file |
| Queue.PurgeFreesExactlyItsVoters | kodi_jukebox_server.js:269-271 | after the purge a user holds a record iff they held one for another file |
| Queue.WithoutVotersOfMembers | kodi_jukebox_server.js:269-271 | the purge keeps exactly the records for other files, each one unchanged |
| Queue.WithoutVotersOf | kodi_jukebox_server.js:269-271 | the voter map without every user whose record is the file; `Queue.WithoutVotersOfMembers` states its members |
| Queue.WithoutFileMembers | kodi_jukebox_server.js:272 | the filter keeps exactly the entries with another file, adds nothing, and is shorter when the file was queued |
| Queue.WithoutFile | kodi_jukebox_server.js:272 | `filter(c => c.file !== file)` entry by entry; the lemmas below state what it keeps |
| Queue.WithoutFileSorted | kodi_jukebox_server.js:272 | the filter keeps a sorted queue sorted |
| Queue.WithoutFileUnique | kodi_jukebox_server.js:272 | the filter keeps the files distinct |
| Queue.WithoutFileAppend | kodi_jukebox_server.js:272 | the filter works entry by entry |
| Queue.WithoutAbsentFile | kodi_jukebox_server.js:272 | filtering out a file that no entry has changes nothing |
| Queue.WithoutHeadFile | kodi_jukebox_server.js:264-272 | with distinct files, filtering out the head's file removes exactly the head |
| Queue.SortedTailIsFixpoint | kodi_jukebox_server.js:266 | the save after `shift()` on a sorted queue does not reorder it |
| Queue.SortedWithoutIsFixpoint | kodi_jukebox_server.js:272-273 | the save after the filter on a sorted queue does not reorder it |
| Queue.DroppedHeadKeepsItsVoters | kodi_jukebox_server.js:276 | a head dropped after a failed play keeps its voters' records: its file leaves the queue, and those users are still rejected as already acted |
| Queue.RandomCandidates | kodi_jukebox_server.js:280-281 | the candidates come from the library and are non-empty when the library is |
| Queue.OtherThan | kodi_jukebox_server.js:281 | the library without the items that have the file: an item is kept iff its file differs |
| Queue.RandomPickAvoidsLast | kodi_jukebox_server.js:281 | with a last-played file and more than one item, no candidate has that file unless every item has it, and then the whole library is offered |
| Queue.PickIndex | kodi_jukebox_server.js:282 | `Math.floor(random * n)` is a valid index for any draw in [0, 1) |
| Queue.ObservedSong | kodi_jukebox_server.js:302 | an item is observed iff the reply has a non-empty file; its label is the title, or else a prefix of the file's base name (pinned down by `Queue.ObservedSongFromPath`) |
| Queue.ObservedSongFromPath | kodi_jukebox_server.js:302 | with no title, the label is the base name of the path without its extension |
| Queue.LoadedPlaylist | kodi_jukebox_server.js:154 | the saved playlist when it is an array, and the empty queue otherwise |
| Queue.LoadedVoters | kodi_jukebox_server.js:155 | the saved voters when they are an object; an array loads as the map from index names to its items; anything else loads as the empty map |
| Queue.LoadedPlaying | kodi_jukebox_server.js:156 | a loaded playing item always has a file |
| Queue.IndexKeyInjective | kodi_jukebox_server.js:155 | distinct array indices give distinct property names, so a saved array of voters loads as a map |
| Queue.SnapshotRoundTrip | kodi_jukebox_server.js:154-156 | a consistency check of the loaders against the saver on an already-parsed record: loading what saving writes gives the sorted queue, the same voters and the same playing item; the JSON text in between is not modelled |
| Queue.Snapshot | kodi_jukebox_server.js:176-177 | the record `guardarEstado` writes: the sorted queue, the voters and the playing item |
| Server.Jukebox.constructor | kodi_jukebox_server.js:25-31 | the initial state is empty |
| Server.Jukebox.GuardarEstado | kodi_jukebox_server.js:174-180 | the queue becomes its stable sort, and distinct files stay distinct |
| Server.Jukebox.CargarBiblioteca | kodi_jukebox_server.js:132-143 | the library is the ingested listing, or empty when the request failed |
| Server.Jukebox.CargarEstadoGuardado | kodi_jukebox_server.js:149-169 | each field is kept when it has the expected shape and reset otherwise; the last played file follows the playing item |
| Server.Jukebox.Proponer | kodi_jukebox_server.js:193-204 | the verdict is `ProposeVerdict`; an accepted proposal adds one entry with one vote and the proposer's record, and then sorts; a rejected one changes nothing; distinct files stay distinct |
| Server.Jukebox.Votar | kodi_jukebox_server.js:206-217 | the verdict is `VoteVerdict`; an accepted vote adds one vote to the first entry with the file, records the voter, and then sorts; a rejected one changes nothing |
| Server.Jukebox.EnviarComandoPlay | kodi_jukebox_server.js:229-250 | on success the item plays and becomes the last played file; on failure the playing item is cleared only if it was this file; the queue is sorted either way |
| Server.Jukebox.BorrarVotantesDe | kodi_jukebox_server.js:269-271 | the voters become `WithoutVotersOf` of the old voters |
| Server.Jukebox.DropHead | kodi_jukebox_server.js:266 | `shift()` and then save |
| Server.Jukebox.RemovePlayed | kodi_jukebox_server.js:269-273 | the played file's voters and entries leave, and then the queue is saved |
| Server.Jukebox.PlayQueueHead | kodi_jukebox_server.js:265-276 | on a sorted queue: a head without a file, or a failed play, drops exactly the head and asks for a retry with voters and last played file unchanged; a successful play purges the head's voters and entries and makes it the playing item |
| Server.Jukebox.PlayQueueHeadShrinks | kodi_jukebox_server.js:266-276 | each attempt leaves a strictly shorter queue that holds nothing new |
| Server.Jukebox.PlayFromQueue | kodi_jukebox_server.js:263-276 | the same outcomes, stated on the queue as it was before the sort |
| Server.Jukebox.PlayRandomSong | kodi_jukebox_server.js:277-286 | an empty library changes only the order of the queue; otherwise the item at `PickIndex` among `RandomCandidates` is sent to Kodi |
| Server.Jukebox.ReproducirSiguienteCancion | kodi_jukebox_server.js:255-287 | clears the playing item, then takes the queue outcomes above or, with an empty queue, the random pick as `RandomOutcome` states it; a retry is asked only on a shorter queue; nothing new is queued |
| Server.ChainOutcome | kodi_jukebox_server.js:263-276 | the two ways a chain of attempts on the sorted queue ends: k failed heads dropped and nothing left, with the voters unchanged; or head k plays, its file leaves the rest of the queue and only its voters are purged |
| Server.ChainAfterDroppedHead | kodi_jukebox_server.js:266-276 | a chain that ends after k heads of the queue without its failed head ends after k + 1 heads of the whole queue |
| Server.ChainEnd | kodi_jukebox_server.js:263-276 | the number of heads a chain drops: at most the queue's length; every head before it has no file or was refused by Kodi; the head at that position, if any, has a file and Kodi accepts it |
| Server.RandomOutcome | kodi_jukebox_server.js:277-286 | how the random fallback ends: the candidate at the drawn index plays and becomes the last played file when it has a file and Kodi accepts it; otherwise nothing plays and the last played file stays |
| Server.ChainResult | kodi_jukebox_server.js:263-286 | the whole outcome of a chain: the `ChainEnd` heads are dropped; then the next head plays, is filtered out, has only its voters purged and becomes the last played file; or, with the queue drained, the random fallback runs with the next answer |
| Server.ChainResultAfterDroppedHead | kodi_jukebox_server.js:266-276 | when the head has no file or is refused, the chain's outcome on the rest of the queue, one attempt later, is its outcome on the whole queue |
| Server.Jukebox.ReproducirConReintentos | kodi_jukebox_server.js:263-286 | the retry chain terminates and ends in the `ChainResult` of the sorted queue for Kodi's answers: the first head with a file that Kodi accepts plays, the heads before it are dropped, its file leaves the queue and only its voters are purged, and it becomes the last played file; with every head refused or without a file, the queue ends empty, the voters unchanged, and the random fallback runs; it adds nothing to the queue and keeps files distinct |
| Server.Jukebox.DetectarCancionActual | kodi_jukebox_server.js:301-306 | a different observed item replaces the believed one and becomes the last played file, followed by a save; an equal one or a failed request changes nothing |
| Client.CleanLibrary | script.js:27-34 | cleaning never lengthens the list, and every kept song has a file |
| Client.Cleaned | script.js:29-32 | the map step: an entry keeps its file and gets the client's label |
| Client.Served | kodi_jukebox_server.js:188-190 | the `/kodi` payload: every library item, in order, as an entry with the server's label and file |
| Client.CleanLibraryMembership | script.js:27-34 | a song is in the cleaned library iff it is the cleaned form of some received entry with a file |
| Client.ClientLabelStripsExtension | script.js:30 | a label carrying a media extension, in any letter case, loses exactly that extension |
| Client.ClientLabelFromPath | script.js:31 | without a label, the base name of the path is shown without its media extension |
| Client.ClientLabel | script.js:30-31 | the shown label is a prefix of the received label or of the file's base name |
| Client.ClientKeepsServerLabel | script.js:24-31 | a label the server derived is shown unchanged unless it still ends in a media extension; this includes the empty label |
| Client.ClientStripsServerLabelAgain | script.js:30 | a Kodi label base.ext.ext2 with a media ext is stored by the server as base.ext and shown by the client as base |
| Client.CleanServedLibrary | script.js:24-34 | cleaning the served library gives it back when every item has a file and a label the client keeps |
| Client.ClientLibraryIsServerLibrary | script.js:24-34 | when no label the server derived ends in a media extension, the client's library is the server's: same items, labels and order |
| Client.CleanServedInLibrary | script.js:24-34 | every song of the client's list has a file of the server's library |
| Client.Trim | script.js:80 | `trim()` removes only white space, from both ends, leaves neither end white, and is empty iff the text was all white space |
| Client.SearchText | script.js:80 | `toLowerCase().trim()` of the search box (the trimming is stated by `Client.Trim`) |
| Client.PlayingFile | script.js:183 | the playing file is known iff an item with a non-empty file is playing |
| Client.Visible | script.js:84-86 | the filter predicate: the file is not queued, it is not the playing file, and the search is empty or the lower-cased label includes it |
| Client.Includes | script.js:86 | `includes`: the text occurs in the label at some position |
| Client.VisibleLibrary | script.js:83-87 | the filtered list is never longer than the library; the lemmas below state which songs it keeps and in what order |
| Client.LibraryList | script.js:80-87 | the library filtered with the lower-cased, trimmed search text and the playing file |
| Client.VisibleLibraryMembers | script.js:83-87 | a song is listed iff it is in the library, its file is not queued, it is not the playing file, and it matches the search |
| Client.VisibleLibraryHidesQueuedAndPlaying | script.js:81-85 | no listed song has a queued file or the playing file |
| Client.NothingPlayingHidesNothing | script.js:85 | when nothing is playing, the playing-file condition hides nothing |
| Client.VisibleLibrarySearch | script.js:86 | an empty search shows every eligible song; any other search shows one iff its lower-cased label contains the text |
| Client.VisibleLibraryAppend | script.js:83-87 | the filter works song by song |
| Client.VisibleLibraryIsSubsequence | script.js:83-87 | the list is a subsequence of the library, in library order |
| Client.ProposeEnabled | script.js:61 | the Propose button is enabled iff the user has no voter record |
| Client.VoteDisabled | script.js:142-145 | the Vote button is disabled iff the user's record is the entry's file or the user proposed it |
| Client.EnabledProposeAccepted | script.js:61-62 | on the client's cleaned copy of the server's library, an enabled Propose button on a listed song with a label leads to an accepted proposal |
| Client.DisabledProposeRejected | script.js:61-65 | a disabled Propose button matches a server that rejects the proposal |
| Client.EnabledVoteVerdict | script.js:142-149 | an enabled Vote button leads to an accepted vote iff the user has no voter record |
| Client.DisabledVoteRejected | script.js:142-147 | a Vote button disabled because the user backs that entry matches a server that rejects the vote |

## Left out

- HTTP routes, Express, `cors`, and the `/canciones` and `/estado` responses are not modelled. The `/kodi` response is modelled only as the list of items it carries (`Served`): its 503 reply for an empty library, which leaves the client showing an error, is not modelled. The sort inside `/estado` is the one `GuardarEstado` models.
- All `fetch` calls to Kodi and the Kodi WebSocket connection are not modelled. Their outcomes are parameters.
- The browser WebSocket server, `broadcastEstado` and the client's WebSocket handling are not modelled.
- Reading and writing `jukebox.json`, `JSON.parse` and `JSON.stringify` are not modelled. Loading starts from an already-parsed record, and `GuardarEstado` models only the sort.
- `setTimeout` delays are not modelled. Neither is interleaving at `await`: another handler running while the play command waits could change the queue that `shift()` then acts on. During the delay before a retry, other handlers (a proposal, a vote, a detection, another `Player.OnStop`) can run; the model runs the whole retry chain with nothing in between, so "every retry runs on a strictly shorter queue" holds only for the chain in isolation.
- `Math.random` is not modelled. The draw is a parameter.
- SIGINT shutdown, `crypto.randomUUID`, `localStorage` and every DOM, `innerHTML` and `alert` call are not modelled.
- Media.Lower folds only A to Z. This is exactly what the `/i` regular expressions do on the ASCII media extensions. JavaScript's `toLowerCase`, used by Client.SearchText and Client.VisibleLibrarySearch, also folds non-ASCII letters, so a search containing accented capitals can differ.
- Request fields are strings in the model. Numbers, objects and other non-string values in a request body are not modelled.
- User ids that name `Object.prototype` members such as `__proto__` are not modelled. The voter map is a plain map.
- Saved queue entries are well-formed in the model. An entry without `votos` or `file` (for example `undefined === undefined` in the client's Vote rule) is not modelled.
- A saved `votantes` array keeps only its index properties. Any other properties of the array are not modelled.
- The detection compares `JSON.stringify` of the two items. The model compares them as values, so a saved item with extra fields or another key order is not modelled.
- Server.Jukebox.PlayQueueHead: it is called with the believed playing item already cleared, as `ReproducirSiguienteCancion` always does first.
- Client.EnabledProposeAccepted: the Propose button does not check that the song has a label. A song whose cleaned label is empty is rejected by the server as missing data, so the lemma requires a label.
