/** The jukebox server's state and the handlers that change it in place
 *  (kodi_jukebox_server.js). Each handler runs to completion before the next starts. */
module Server {
  import opened Media
  import opened Queue

  /** Where a chain of play attempts on the sorted queue s0 ends: the first k heads failed and
   *  were dropped. Either nothing is left and the voters are as before, or head k plays, its
   *  file leaves the rest of the queue and only its voters are purged. */
  predicate ChainOutcome(s0: seq<Entry>, voters0: map<string, string>, k: nat,
                         q: seq<Entry>, voters: map<string, string>, playing: Option<Song>)
  {
    || (k == |s0| && q == [] && voters == voters0)
    || (k < |s0| && playing == Some(Song(s0[k].name, s0[k].file))
        && q == WithoutFile(s0[k..], s0[k].file) && voters == WithoutVotersOf(voters0, s0[k].file))
  }

  /** A chain that ends k' heads into the queue without its failed head ends k' + 1 heads
   *  into the whole queue. */
  lemma ChainAfterDroppedHead(s0: seq<Entry>, voters0: map<string, string>, k': nat,
                              q: seq<Entry>, voters: map<string, string>, playing: Option<Song>)
    requires s0 != [] && ChainOutcome(s0[1..], voters0, k', q, voters, playing)
    ensures ChainOutcome(s0, voters0, k' + 1, q, voters, playing)
  {
    if k' < |s0[1..]| {
      assert s0[1..][k'] == s0[k' + 1];
      assert s0[1..][k'..] == s0[k' + 1..];
    }
  }

  /** The number of heads a chain of attempts drops, starting at attempt number `attempt`
   *  whose play command gets Kodi's answer `answers(attempt)`: the first head with a file that
   *  Kodi accepts plays, every head before it is dropped. */
  function ChainEnd(s0: seq<Entry>, answers: nat -> bool, attempt: nat): (k: nat)
    ensures k <= |s0|
    ensures k < |s0| ==> s0[k].file != "" && answers(attempt + k)
    ensures forall i :: 0 <= i < k ==> s0[i].file == "" || !answers(attempt + i)
    decreases |s0|
  {
    if s0 == [] || (s0[0].file != "" && answers(attempt)) then 0
    else 1 + ChainEnd(s0[1..], answers, attempt + 1)
  }

  /** Where the random fallback of an empty queue ends (kodi_jukebox_server.js:277-286), with
   *  nothing believed to be playing and `last0` the file that just finished: the candidate at
   *  the drawn index plays when it has a file and Kodi accepts it; otherwise nothing plays and
   *  the last played file stays. */
  predicate RandomOutcome(library: seq<Song>, accepted: bool, random: real, last0: Option<string>,
                          playing: Option<Song>, last: Option<string>)
    requires 0.0 <= random < 1.0
  {
    if library == [] || !accepted then playing == None && last == last0
    else
      var c := RandomCandidates(library, last0);
      var pick := c[PickIndex(random, |c|)];
      if pick.file != "" then playing == Some(pick) && last == Some(pick.file)
      else playing == None && last == last0
  }

  /** The whole outcome of a chain of attempts on the sorted queue s0: the heads that
   *  `ChainEnd` counts are dropped; then the next head plays and becomes the last played file,
   *  or, with the queue drained, the random fallback runs with the next answer. */
  predicate ChainResult(s0: seq<Entry>, voters0: map<string, string>, last0: Option<string>, library: seq<Song>,
                        answers: nat -> bool, attempt: nat, random: real,
                        q: seq<Entry>, voters: map<string, string>, playing: Option<Song>, last: Option<string>)
    requires 0.0 <= random < 1.0
  {
    var k := ChainEnd(s0, answers, attempt);
    && ChainOutcome(s0, voters0, k, q, voters, playing)
    && (k < |s0| ==> last == Some(s0[k].file))
    && (k == |s0| ==> RandomOutcome(library, answers(attempt + k), random, last0, playing, last))
  }

  /** A chain on the queue without its head that ends as `ChainResult` says, after the head
   *  was dropped unplayed, ends as `ChainResult` says for the whole queue. */
  lemma ChainResultAfterDroppedHead(s0: seq<Entry>, voters0: map<string, string>, last0: Option<string>,
                                    library: seq<Song>, answers: nat -> bool, attempt: nat, random: real,
                                    q: seq<Entry>, voters: map<string, string>, playing: Option<Song>,
                                    last: Option<string>)
    requires 0.0 <= random < 1.0
    requires s0 != [] && (s0[0].file == "" || !answers(attempt))
    requires ChainResult(s0[1..], voters0, last0, library, answers, attempt + 1, random, q, voters, playing, last)
    ensures ChainResult(s0, voters0, last0, library, answers, attempt, random, q, voters, playing, last)
  {
    var k' := ChainEnd(s0[1..], answers, attempt + 1);
    assert ChainEnd(s0, answers, attempt) == k' + 1;
    assert attempt + 1 + k' == attempt + (k' + 1);
    ChainAfterDroppedHead(s0, voters0, k', q, voters, playing);
    if k' < |s0[1..]| {
      assert s0[1..][k'] == s0[k' + 1];
    }
  }

  /** The global `jukebox` record together with `cancionesDisponiblesServidor` (library) and
   *  `ultimoArchivoReproducido` (lastPlayed). */
  class Jukebox {
    var playlist: seq<Entry>
    var votantes: map<string, string>
    var actualSonando: Option<Song>
    var lastPlayed: Option<string>
    var library: seq<Song>

    /** The state before anything is loaded (kodi_jukebox_server.js:25-31). */
    constructor ()
      ensures playlist == [] && votantes == map[] && actualSonando == None
      ensures lastPlayed == None && library == []
    {
      playlist, votantes, actualSonando := [], map[], None;
      lastPlayed, library := None, [];
    }

    /** `guardarEstado`: sorts the queue, most votes first and ties in their previous order;
     *  writing the file is not modelled. */
    method GuardarEstado()
      modifies this`playlist
      ensures playlist == SortByVotes(old(playlist))
      ensures UniqueFiles(old(playlist)) ==> UniqueFiles(playlist)
    {
      if UniqueFiles(playlist) {
        SortByVotesUnique(playlist);
      }
      playlist := SortByVotes(playlist);
    }

    /** `cargarBibliotecaKodi` once Kodi has answered: `listing` is the reply's `files`, or
     *  None when the request failed or the reply was malformed. */
    method CargarBiblioteca(listing: Option<seq<RawFile>>)
      modifies this`library
      ensures library == if listing.Some? then IngestLibrary(listing.value) else []
      ensures forall k :: 0 <= k < |library| ==> IsMediaFile(library[k].file)
    {
      if listing.Some? {
        library := IngestLibrary(listing.value);
      } else {
        library := [];
      }
    }

    /** `cargarEstadoGuardado`: every field of a parsed record is kept when it has the
     *  expected shape and replaced by its empty value otherwise. */
    method CargarEstadoGuardado(input: LoadInput)
      modifies this`playlist, this`votantes, this`actualSonando, this`lastPlayed
      ensures input.Parsed? ==> playlist == LoadedPlaylist(input.saved.playlist)
                                && votantes == LoadedVoters(input.saved.voters)
                                && actualSonando == LoadedPlaying(input.saved.playing)
      ensures !input.Parsed? ==> playlist == [] && votantes == map[] && actualSonando == None
      ensures lastPlayed == if actualSonando.Some? then Some(actualSonando.value.file) else None
    {
      if input.Parsed? {
        playlist := LoadedPlaylist(input.saved.playlist);
        votantes := LoadedVoters(input.saved.voters);
        actualSonando := LoadedPlaying(input.saved.playing);
      } else {
        playlist, votantes, actualSonando := [], map[], None;
        GuardarEstado();
      }
      lastPlayed := if actualSonando.Some? && actualSonando.value.file != "" then Some(actualSonando.value.file) else None;
    }

    /** `POST /proponer`: the four checks in order, then one new entry with one vote and the
     *  proposer's voter record. */
    method Proponer(name: string, file: string, user: string) returns (v: Verdict)
      modifies this`playlist, this`votantes
      ensures v == ProposeVerdict(old(playlist), old(votantes), library, name, file, user)
      ensures v == Accepted ==> playlist == SortByVotes(old(playlist) + [Entry(name, file, 1, user)])
                                && votantes == old(votantes)[user := file]
      ensures v != Accepted ==> playlist == old(playlist) && votantes == old(votantes)
      ensures UniqueFiles(old(playlist)) ==> UniqueFiles(playlist)
    {
      v := ProposeVerdict(playlist, votantes, library, name, file, user);
      if v != Accepted {
        return;
      }
      var entry := Entry(name, file, 1, user);
      if UniqueFiles(playlist) {
        assert !Queued(playlist, file);
        UniqueAppend(playlist, entry);
      }
      playlist := playlist + [entry];
      votantes := votantes[user := file];
      GuardarEstado();
    }

    /** `POST /votar`: the checks in order, then one more vote on the first entry with that
     *  file and the voter's record. */
    method Votar(file: string, user: string) returns (v: Verdict)
      modifies this`playlist, this`votantes
      ensures v == VoteVerdict(old(playlist), old(votantes), file, user)
      ensures v == Accepted ==> FindIndex(old(playlist), file) >= 0
                                && playlist == SortByVotes(AddVote(old(playlist), FindIndex(old(playlist), file)))
                                && votantes == old(votantes)[user := file]
      ensures v != Accepted ==> playlist == old(playlist) && votantes == old(votantes)
      ensures UniqueFiles(old(playlist)) ==> UniqueFiles(playlist)
    {
      if file == "" || user == "" { return Rejected(MissingData); }
      if HasVoterRecord(votantes, user) { return Rejected(AlreadyVoted); }
      var k := FindIndex(playlist, file);
      if k == -1 { return Rejected(NotQueued); }
      if UniqueFiles(playlist) {
        VoteKeepsFilesUnique(playlist, votantes, file, user);
      }
      playlist := AddVote(playlist, k);
      votantes := votantes[user := file];
      GuardarEstado();
      return Accepted;
    }

    /** `enviarComandoPlayKodi` once Kodi has answered `Player.Open` (`accepted`). */
    method EnviarComandoPlay(file: string, name: string, accepted: bool) returns (ok: bool)
      modifies this`playlist, this`actualSonando, this`lastPlayed
      ensures ok == accepted
      ensures playlist == SortByVotes(old(playlist))
      ensures accepted ==> actualSonando == Some(Song(name, file)) && lastPlayed == Some(file)
      ensures !accepted ==> lastPlayed == old(lastPlayed)
      ensures !accepted ==> actualSonando == if old(actualSonando).Some? && old(actualSonando).value.file == file
                                              then None else old(actualSonando)
    {
      if accepted {
        actualSonando := Some(Song(name, file));
        lastPlayed := Some(file);
      } else if actualSonando.Some? && actualSonando.value.file == file {
        actualSonando := None;
      }
      GuardarEstado();
      return accepted;
    }

    /** Deletes the record of every user whose record is `file` (kodi_jukebox_server.js:269-271). */
    method BorrarVotantesDe(file: string)
      modifies this`votantes
      ensures votantes == WithoutVotersOf(old(votantes), file)
    {
      var users := VotersOf(votantes, file);
      votantes := votantes - users;
      WithoutVotersOfMembers(old(votantes), file);
      assert votantes == WithoutVotersOf(old(votantes), file);
    }

    /** `jukebox.playlist.shift()`, then `guardarEstado`. */
    method DropHead()
      requires playlist != []
      modifies this`playlist
      ensures playlist == SortByVotes(old(playlist)[1..])
      ensures UniqueFiles(old(playlist)) ==> UniqueFiles(playlist)
    {
      if UniqueFiles(playlist) {
        UniqueSuffix(playlist, 1);
      }
      playlist := playlist[1..];
      GuardarEstado();
    }

    /** After a successful play of `file` (kodi_jukebox_server.js:269-273): its voters get
     *  their turn back, every entry for it leaves the queue, and the state is saved. */
    method RemovePlayed(file: string)
      modifies this`playlist, this`votantes
      ensures playlist == SortByVotes(WithoutFile(old(playlist), file))
      ensures votantes == WithoutVotersOf(old(votantes), file)
      ensures UniqueFiles(old(playlist)) ==> UniqueFiles(playlist)
    {
      BorrarVotantesDe(file);
      if UniqueFiles(playlist) {
        WithoutFileUnique(playlist, file);
      }
      playlist := WithoutFile(playlist, file);
      GuardarEstado();
    }

    /** The queue branch of `reproducirSiguienteCancion` once the queue is sorted
     *  (kodi_jukebox_server.js:265-275), reached with the believed item already cleared: play
     *  the head; on success purge its voters and its file, otherwise drop the head and ask for
     *  another attempt. */
    method PlayQueueHead(accepted: bool) returns (retry: bool)
      requires playlist != [] && SortByVotes(playlist) == playlist && actualSonando == None
      modifies this`playlist, this`votantes, this`actualSonando, this`lastPlayed
      ensures retry <==> old(playlist)[0].file == "" || !accepted
      ensures retry ==> playlist == old(playlist)[1..] && votantes == old(votantes)
                        && actualSonando == None && lastPlayed == old(lastPlayed)
      ensures !retry ==> var head := old(playlist)[0];
                         playlist == WithoutFile(old(playlist), head.file)
                         && votantes == WithoutVotersOf(old(votantes), head.file)
                         && actualSonando == Some(Song(head.name, head.file)) && lastPlayed == Some(head.file)
      ensures UniqueFiles(old(playlist)) ==> UniqueFiles(playlist)
    {
      ghost var before, voters, played := playlist, votantes, lastPlayed;
      var next := playlist[0];
      if next.file == "" {
        SortedTailIsFixpoint(before);
        DropHead();
        return true;
      }
      var ok := EnviarComandoPlay(next.file, next.name, accepted);
      assert votantes == voters && playlist == before;
      if ok {
        SortedWithoutIsFixpoint(before, next.file);
        RemovePlayed(next.file);
        return false;
      } else {
        assert lastPlayed == played && actualSonando == None;
        SortedTailIsFixpoint(before);
        DropHead();
        return true;
      }
    }

    /** Each attempt on a non-empty queue removes at least its head. */
    lemma PlayQueueHeadShrinks(q: seq<Entry>, retry: bool, after: seq<Entry>)
      requires q != []
      requires retry ==> after == q[1..]
      requires !retry ==> after == WithoutFile(q, q[0].file)
      ensures |after| < |q| && multiset(after) <= multiset(q)
    {
      if retry {
        assert q == [q[0]] + q[1..];
      } else {
        WithoutFileMembers(q, q[0].file);
        assert Queued(q, q[0].file) by { assert q[0] in q; }
      }
    }

    /** The empty-queue branch of `reproducirSiguienteCancion` (kodi_jukebox_server.js:277-286):
     *  play a random library item, avoiding `justFinished` where the library allows. */
    method PlayRandomSong(accepted: bool, random: real, justFinished: Option<string>)
      requires 0.0 <= random < 1.0
      modifies this`playlist, this`actualSonando, this`lastPlayed
      ensures playlist == SortByVotes(old(playlist))
      ensures library == [] || !accepted ==> lastPlayed == old(lastPlayed)
      ensures library == [] ==> actualSonando == old(actualSonando)
      ensures var c := RandomCandidates(library, justFinished);
              library != [] ==>
                var pick := c[PickIndex(random, |c|)];
                if pick.file != "" && accepted then actualSonando == Some(pick) && lastPlayed == Some(pick.file)
                else if pick.file != "" then
                  actualSonando == (if old(actualSonando).Some? && old(actualSonando).value.file == pick.file
                                    then None else old(actualSonando))
                  && lastPlayed == old(lastPlayed)
                else actualSonando == old(actualSonando) && lastPlayed == old(lastPlayed)
    {
      if |library| == 0 {
        GuardarEstado();
        return;
      }
      var candidates := RandomCandidates(library, justFinished);
      var pick := candidates[PickIndex(random, |candidates|)];
      if pick.file == "" {
        GuardarEstado();
        return;
      }
      var _ := EnviarComandoPlay(pick.file, pick.name, accepted);
    }

    /** The queue branch of `reproducirSiguienteCancion` (kodi_jukebox_server.js:263-276):
     *  sort the queue, then play its head. Each attempt removes at least the head and adds
     *  nothing. */
    method PlayFromQueue(accepted: bool) returns (retry: bool)
      requires playlist != [] && actualSonando == None
      modifies this`playlist, this`votantes, this`actualSonando, this`lastPlayed
      ensures SortByVotes(old(playlist)) != []
      ensures retry <==> SortByVotes(old(playlist))[0].file == "" || !accepted
      ensures retry ==> playlist == SortByVotes(old(playlist))[1..] && votantes == old(votantes)
                        && actualSonando == None && lastPlayed == old(lastPlayed)
      ensures !retry ==> var head := SortByVotes(old(playlist))[0];
                         playlist == WithoutFile(SortByVotes(old(playlist)), head.file)
                         && votantes == WithoutVotersOf(old(votantes), head.file)
                         && actualSonando == Some(Song(head.name, head.file)) && lastPlayed == Some(head.file)
      ensures |playlist| < |old(playlist)| && multiset(playlist) <= multiset(old(playlist))
      ensures UniqueFiles(old(playlist)) ==> UniqueFiles(playlist)
    {
      var q := SortByVotes(playlist);
      SortByVotesPermutes(playlist);
      SortByVotesIdempotent(playlist);
      if UniqueFiles(playlist) {
        SortByVotesUnique(playlist);
      }
      assert q != [] && SortByVotes(q) == q;
      playlist := q;
      retry := PlayQueueHead(accepted);
      PlayQueueHeadShrinks(q, retry, playlist);
    }

    /** `reproducirSiguienteCancion` after a `Player.OnStop`: clears the item believed to be
     *  playing, then plays the head of the sorted queue or, with an empty queue, a random
     *  library item. `accepted` is Kodi's answer to the play command and `random` the draw
     *  of `Math.random()`. Returns whether the source schedules another attempt. */
    method ReproducirSiguienteCancion(accepted: bool, random: real) returns (retry: bool)
      requires 0.0 <= random < 1.0
      modifies this`playlist, this`votantes, this`actualSonando, this`lastPlayed
      ensures old(playlist) != [] ==> SortByVotes(old(playlist)) != []
      ensures old(playlist) != [] ==>
                (retry <==> SortByVotes(old(playlist))[0].file == "" || !accepted)
      ensures old(playlist) != [] && retry ==>
                playlist == SortByVotes(old(playlist))[1..] && votantes == old(votantes)
                && actualSonando == None && lastPlayed == old(lastPlayed)
      ensures old(playlist) != [] && !retry ==>
                var head := SortByVotes(old(playlist))[0];
                playlist == WithoutFile(SortByVotes(old(playlist)), head.file)
                && votantes == WithoutVotersOf(old(votantes), head.file)
                && actualSonando == Some(Song(head.name, head.file)) && lastPlayed == Some(head.file)
      ensures old(playlist) == [] ==> !retry && playlist == [] && votantes == old(votantes)
      ensures old(playlist) == [] ==>
                RandomOutcome(library, accepted, random, old(lastPlayed), actualSonando, lastPlayed)
      ensures retry ==> |playlist| < |old(playlist)|
      ensures multiset(playlist) <= multiset(old(playlist))
      ensures UniqueFiles(old(playlist)) ==> UniqueFiles(playlist)
    {
      var justFinished := lastPlayed;
      actualSonando := None;
      if |playlist| > 0 {
        retry := PlayFromQueue(accepted);
      } else {
        PlayRandomSong(accepted, random, justFinished);
        retry := false;
      }
    }

    /** The `setTimeout(reproducirSiguienteCancion, ...)` retries: attempt number `attempt`
     *  gets Kodi's answer `answers(attempt)`; each retry runs on a strictly shorter queue. */
    method ReproducirConReintentos(answers: nat -> bool, attempt: nat, random: real)
      requires 0.0 <= random < 1.0
      modifies this`playlist, this`votantes, this`actualSonando, this`lastPlayed
      ensures ChainResult(SortByVotes(old(playlist)), old(votantes), old(lastPlayed), library, answers, attempt, random,
                          playlist, votantes, actualSonando, lastPlayed)
      ensures multiset(playlist) <= multiset(old(playlist))
      ensures forall u :: u in votantes ==> u in old(votantes) && votantes[u] == old(votantes)[u]
      ensures UniqueFiles(old(playlist)) ==> UniqueFiles(playlist)
      ensures playlist == [] || (actualSonando.Some? && !Queued(playlist, actualSonando.value.file))
      decreases |playlist|
    {
      ghost var before, voters0, last0 := playlist, votantes, lastPlayed;
      ghost var s0 := SortByVotes(before);
      var retry := ReproducirSiguienteCancion(answers(attempt), random);
      if retry {
        assert votantes == voters0 && playlist == s0[1..] && lastPlayed == last0;
        SortByVotesIdempotent(before);
        SortedTailIsFixpoint(s0);
        ReproducirConReintentos(answers, attempt + 1, random);
        ChainResultAfterDroppedHead(s0, voters0, last0, library, answers, attempt, random,
                                    playlist, votantes, actualSonando, lastPlayed);
      } else if before != [] {
        assert actualSonando == Some(Song(s0[0].name, s0[0].file)) && lastPlayed == Some(s0[0].file);
        assert playlist == WithoutFile(s0, s0[0].file) && votantes == WithoutVotersOf(voters0, s0[0].file);
        assert s0[0..] == s0;
        assert ChainEnd(s0, answers, attempt) == 0;
        assert ChainOutcome(s0, voters0, 0, playlist, votantes, actualSonando);
        WithoutFileMembers(s0, s0[0].file);
        WithoutVotersOfMembers(voters0, s0[0].file);
      } else {
        assert ChainEnd(s0, answers, attempt) == 0;
        assert ChainOutcome(s0, voters0, 0, playlist, votantes, actualSonando);
      }
    }

    /** `detectarCancionActual` once Kodi has answered `Player.GetItem`: `reply` is the
     *  reply's item, or None when the request failed or Kodi reported an error. The
     *  observed item replaces the believed one whenever they differ. */
    method DetectarCancionActual(reply: Option<PlayerItem>)
      modifies this`playlist, this`actualSonando, this`lastPlayed
      ensures reply.Some? ==> actualSonando == ObservedSong(reply.value)
      ensures reply.Some? && ObservedSong(reply.value) != old(actualSonando) ==>
                lastPlayed == (if actualSonando.Some? then Some(actualSonando.value.file) else None)
                && playlist == SortByVotes(old(playlist))
      ensures reply.None? || ObservedSong(reply.value) == old(actualSonando) ==>
                playlist == old(playlist) && actualSonando == old(actualSonando) && lastPlayed == old(lastPlayed)
    {
      if reply.None? {
        return;
      }
      var observed := ObservedSong(reply.value);
      if observed != actualSonando {
        actualSonando := observed;
        lastPlayed := if observed.Some? && observed.value.file != "" then Some(observed.value.file) else None;
        GuardarEstado();
      }
    }
  }
}
