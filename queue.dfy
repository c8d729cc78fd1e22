/** The jukebox queue as values: entries, the vote ordering `guardarEstado` imposes, the
 *  checks of the propose and vote handlers, the voter purge after a play, the random
 *  fallback, the detected item and the sanitising of a saved state. */
module Queue {
  import opened Media

  /** A queue entry (`{label, file, votos, propuestoPor}`); `votos` counts the proposal and
   *  every vote, `proposer` is the user who proposed it. */
  datatype Entry = Entry(name: string, file: string, votos: int, proposer: string)

  // ---------------------------------------------------------------------------
  // Ordering by votes (kodi_jukebox_server.js:176, also 220 and 264)

  /** Non-increasing in votos. */
  predicate SortedByVotes(s: seq<Entry>)
  {
    forall i, j :: 0 <= i < j < |s| ==> s[i].votos >= s[j].votos
  }

  /** The entries of s that have exactly v votes, in their order in s. */
  function WithVotes(s: seq<Entry>, v: int): seq<Entry>
  {
    if s == [] then []
    else WithVotes(s[..|s| - 1], v) + (if s[|s| - 1].votos == v then [s[|s| - 1]] else [])
  }

  /** Places e after every trailing entry that has at least as many votes as e. */
  function InsertByVotes(s: seq<Entry>, e: Entry): seq<Entry>
  {
    if s == [] || s[|s| - 1].votos >= e.votos then s + [e]
    else InsertByVotes(s[..|s| - 1], e) + [s[|s| - 1]]
  }

  /** `sort((a, b) => b.votos - a.votos)`: a stable sort, most votes first, ties in their
   *  previous order (an insertion sort over the entries in order). */
  function SortByVotes(s: seq<Entry>): seq<Entry>
  {
    if s == [] then [] else InsertByVotes(SortByVotes(s[..|s| - 1]), s[|s| - 1])
  }

  lemma {:induction false} InsertByVotesPermutes(s: seq<Entry>, e: Entry)
    ensures multiset(InsertByVotes(s, e)) == multiset(s) + multiset{e}
    ensures |InsertByVotes(s, e)| == |s| + 1
  {
    if s == [] || s[|s| - 1].votos >= e.votos {
      assert InsertByVotes(s, e) == s + [e];
    } else {
      var init, last := s[..|s| - 1], s[|s| - 1];
      assert s == init + [last];
      assert multiset(s) == multiset(init) + multiset{last};
      assert InsertByVotes(s, e) == InsertByVotes(init, e) + [last];
      InsertByVotesPermutes(init, e);
    }
  }

  /** The sort is a permutation of its input. */
  lemma {:induction false} SortByVotesPermutes(s: seq<Entry>)
    ensures multiset(SortByVotes(s)) == multiset(s)
    ensures |SortByVotes(s)| == |s|
  {
    if s != [] {
      var init, last := s[..|s| - 1], s[|s| - 1];
      assert s == init + [last];
      assert multiset(s) == multiset(init) + multiset{last};
      var sorted := SortByVotes(init);
      assert SortByVotes(s) == InsertByVotes(sorted, last);
      SortByVotesPermutes(init);
      InsertByVotesPermutes(sorted, last);
    }
  }

  lemma {:induction false} InsertByVotesSorted(s: seq<Entry>, e: Entry)
    requires SortedByVotes(s)
    ensures SortedByVotes(InsertByVotes(s, e))
  {
    if s == [] || s[|s| - 1].votos >= e.votos {
      forall y | y in s ensures y.votos >= e.votos {
        var i :| 0 <= i < |s| && s[i] == y;
      }
      SortedAppend(s, e);
      assert InsertByVotes(s, e) == s + [e];
    } else {
      var init, last := s[..|s| - 1], s[|s| - 1];
      SortedPrefix(s, |s| - 1);
      InsertByVotesSorted(init, e);
      InsertByVotesPermutes(init, e);
      var t := InsertByVotes(init, e);
      forall y | y in t ensures y.votos >= last.votos {
        assert y in multiset(init) + multiset{e};
        if y in init {
          var i :| 0 <= i < |init| && init[i] == y;
          assert s[i] == y;
        }
      }
      SortedAppend(t, last);
      assert InsertByVotes(s, e) == t + [last];
    }
  }

  /** The sort orders the queue by votes, most first. */
  lemma {:induction false} SortByVotesSorted(s: seq<Entry>)
    ensures SortedByVotes(SortByVotes(s))
  {
    if s != [] {
      SortByVotesSorted(s[..|s| - 1]);
      InsertByVotesSorted(SortByVotes(s[..|s| - 1]), s[|s| - 1]);
    }
  }

  lemma WithVotesAppend(s: seq<Entry>, x: Entry, v: int)
    ensures WithVotes(s + [x], v) == WithVotes(s, v) + (if x.votos == v then [x] else [])
  {
    assert (s + [x])[..|s|] == s;
  }

  lemma {:induction false} InsertByVotesGroups(s: seq<Entry>, e: Entry, v: int)
    ensures WithVotes(InsertByVotes(s, e), v) == WithVotes(s, v) + (if e.votos == v then [e] else [])
  {
    if s == [] || s[|s| - 1].votos >= e.votos {
      assert InsertByVotes(s, e) == s + [e];
      WithVotesAppend(s, e, v);
    } else {
      var init, last := s[..|s| - 1], s[|s| - 1];
      var ins := InsertByVotes(init, e);
      var g := WithVotes(init, v);
      var tailE: seq<Entry> := if e.votos == v then [e] else [];
      var tailL: seq<Entry> := if last.votos == v then [last] else [];
      assert InsertByVotes(s, e) == ins + [last];
      assert s == init + [last];
      InsertByVotesGroups(init, e, v);
      WithVotesAppend(ins, last, v);
      WithVotesAppend(init, last, v);
      assert WithVotes(InsertByVotes(s, e), v) == (g + tailE) + tailL;
      assert WithVotes(s, v) + tailE == (g + tailL) + tailE;
      if tailE == [] {
        assert (g + tailE) + tailL == (g + tailL) + tailE;
      } else {
        assert tailL == [];
        assert (g + tailE) + tailL == (g + tailL) + tailE;
      }
    }
  }

  /** The sort is stable: the entries with any given vote count keep their relative order. */
  lemma {:induction false} SortByVotesStable(s: seq<Entry>, v: int)
    ensures WithVotes(SortByVotes(s), v) == WithVotes(s, v)
  {
    if s != [] {
      var init, last := s[..|s| - 1], s[|s| - 1];
      SortByVotesStable(init, v);
      InsertByVotesGroups(SortByVotes(init), last, v);
    }
  }

  /** Sorting a queue that is already in order changes nothing, so sorting twice is sorting
   *  once. */
  lemma {:induction false} SortedIsFixpoint(s: seq<Entry>)
    requires SortedByVotes(s)
    ensures SortByVotes(s) == s
  {
    if s != [] {
      var init, last := s[..|s| - 1], s[|s| - 1];
      SortedPrefix(s, |s| - 1);
      SortedIsFixpoint(init);
      if init != [] {
        assert init[|init| - 1] == s[|s| - 2];
        assert s[|s| - 2].votos >= last.votos;
      }
      assert InsertByVotes(init, last) == init + [last];
      assert s == init + [last];
    }
  }

  lemma SortByVotesIdempotent(s: seq<Entry>)
    ensures SortByVotes(SortByVotes(s)) == SortByVotes(s)
  {
    SortByVotesSorted(s);
    SortedIsFixpoint(SortByVotes(s));
  }

  lemma LastInOwnGroup(s: seq<Entry>)
    requires s != []
    ensures WithVotes(s, s[|s| - 1].votos) != []
  {
  }

  lemma {:induction false} GroupMember(s: seq<Entry>, v: int)
    requires WithVotes(s, v) != []
    ensures exists i :: 0 <= i < |s| && s[i].votos == v
  {
    var init := s[..|s| - 1];
    if s[|s| - 1].votos != v {
      GroupMember(init, v);
      var i :| 0 <= i < |init| && init[i].votos == v;
      assert s[i] == init[i];
    }
  }

  lemma DropLastOfGroups(r0: seq<Entry>, x: Entry, t0: seq<Entry>, y: Entry, v: int)
    requires x.votos == y.votos
    requires WithVotes(r0 + [x], v) == WithVotes(t0 + [y], v)
    ensures WithVotes(r0, v) == WithVotes(t0, v)
    ensures v == x.votos ==> x == y
  {
    WithVotesAppend(r0, x, v);
    WithVotesAppend(t0, y, v);
    var a, b := WithVotes(r0, v), WithVotes(t0, v);
    if v == x.votos {
      var ax, bx := a + [x], b + [y];
      assert ax == bx;
      assert |a| == |b|;
      assert a == ax[..|a|] && b == bx[..|b|];
      assert ax[|a|] == x && bx[|b|] == y;
    } else {
      assert a + [] == a && b + [] == b;
    }
  }

  lemma SortedPrefix(s: seq<Entry>, n: nat)
    requires SortedByVotes(s) && n <= |s|
    ensures SortedByVotes(s[..n])
  {
  }

  lemma SortedSuffix(s: seq<Entry>, n: nat)
    requires SortedByVotes(s) && n <= |s|
    ensures SortedByVotes(s[n..])
  {
  }

  /** The last entry of a queue in vote order has the fewest votes. */
  lemma SortedLastIsLeast(s: seq<Entry>, v: int)
    requires SortedByVotes(s) && s != [] && WithVotes(s, v) != []
    ensures v >= s[|s| - 1].votos
  {
    GroupMember(s, v);
  }

  /** Two queues in vote order whose equal-vote groups agree are the same queue. */
  lemma {:induction false} SortedGroupsDetermine(r: seq<Entry>, t: seq<Entry>)
    requires SortedByVotes(r) && SortedByVotes(t)
    requires forall v :: WithVotes(r, v) == WithVotes(t, v)
    ensures r == t
    decreases |r| + |t|
  {
    if r == [] {
      if t != [] {
        LastInOwnGroup(t);
        assert false;
      }
    } else if t == [] {
      LastInOwnGroup(r);
      assert false;
    } else {
      var r0, x := r[..|r| - 1], r[|r| - 1];
      var t0, y := t[..|t| - 1], t[|t| - 1];
      LastInOwnGroup(t);
      SortedLastIsLeast(r, y.votos);
      LastInOwnGroup(r);
      SortedLastIsLeast(t, x.votos);
      assert r == r0 + [x] && t == t0 + [y];
      forall v ensures WithVotes(r0, v) == WithVotes(t0, v) {
        DropLastOfGroups(r0, x, t0, y, v);
      }
      DropLastOfGroups(r0, x, t0, y, x.votos);
      SortedPrefix(r, |r| - 1);
      SortedPrefix(t, |t| - 1);
      SortedGroupsDetermine(r0, t0);
    }
  }

  /** The stable sort is the only vote-ordered arrangement that keeps every equal-vote group
   *  in its previous order. */
  lemma StableSortUnique(s: seq<Entry>, r: seq<Entry>)
    requires SortedByVotes(r)
    requires forall v :: WithVotes(r, v) == WithVotes(s, v)
    ensures r == SortByVotes(s)
  {
    SortByVotesSorted(s);
    forall v ensures WithVotes(r, v) == WithVotes(SortByVotes(s), v) {
      SortByVotesStable(s, v);
    }
    SortedGroupsDetermine(r, SortByVotes(s));
  }

  // ---------------------------------------------------------------------------
  // Files in the queue

  /** `playlist.some(c => c.file === file)`. */
  predicate Queued(playlist: seq<Entry>, file: string)
  {
    exists e :: e in playlist && e.file == file
  }

  /** No entry shares its file with an earlier one. */
  predicate UniqueFiles(playlist: seq<Entry>)
  {
    playlist == []
    || (UniqueFiles(playlist[..|playlist| - 1]) && !Queued(playlist[..|playlist| - 1], playlist[|playlist| - 1].file))
  }

  /** No two entries share a file. */
  lemma {:induction false} UniqueFilesMeaning(s: seq<Entry>)
    ensures UniqueFiles(s) <==> forall i, j :: 0 <= i < j < |s| ==> s[i].file != s[j].file
  {
    if s != [] {
      var init, last := s[..|s| - 1], s[|s| - 1];
      UniqueFilesMeaning(init);
      if Queued(init, last.file) {
        var e :| e in init && e.file == last.file;
        var i :| 0 <= i < |init| && init[i] == e;
        assert s[i].file == s[|s| - 1].file;
      } else {
        forall i | 0 <= i < |init| ensures s[i].file != last.file {
          assert init[i] in init;
        }
      }
    }
  }

  lemma UniqueAppend(s: seq<Entry>, e: Entry)
    requires UniqueFiles(s) && !Queued(s, e.file)
    ensures UniqueFiles(s + [e])
  {
    assert (s + [e])[..|s|] == s;
  }

  lemma {:induction false} InsertByVotesUnique(s: seq<Entry>, e: Entry)
    requires UniqueFiles(s) && !Queued(s, e.file)
    ensures UniqueFiles(InsertByVotes(s, e))
  {
    if s == [] || s[|s| - 1].votos >= e.votos {
      UniqueAppend(s, e);
    } else {
      var init, last := s[..|s| - 1], s[|s| - 1];
      assert forall x :: x in init ==> x in s;
      InsertByVotesUnique(init, e);
      InsertByVotesPermutes(init, e);
      var t := InsertByVotes(init, e);
      forall x | x in t ensures x.file != last.file {
        assert x in multiset(init) + multiset{e};
        if x !in init {
          assert last in s;
        }
      }
      UniqueAppend(t, last);
    }
  }

  /** Sorting keeps the files of the queue distinct. */
  lemma {:induction false} SortByVotesUnique(s: seq<Entry>)
    requires UniqueFiles(s)
    ensures UniqueFiles(SortByVotes(s))
  {
    if s != [] {
      var init, last := s[..|s| - 1], s[|s| - 1];
      SortByVotesUnique(init);
      SortByVotesPermutes(init);
      forall x | x in SortByVotes(init) ensures x.file != last.file {
        assert x in multiset(init);
      }
      InsertByVotesUnique(SortByVotes(init), last);
    }
  }

  /** `playlist.filter(c => c.file !== file)`. */
  function WithoutFile(playlist: seq<Entry>, file: string): seq<Entry>
  {
    if playlist == [] then []
    else
      var last := playlist[|playlist| - 1];
      WithoutFile(playlist[..|playlist| - 1], file) + (if last.file != file then [last] else [])
  }

  /** The filter keeps exactly the entries with another file, and is strictly shorter when
   *  the file was queued. */
  lemma {:induction false} WithoutFileMembers(playlist: seq<Entry>, file: string)
    ensures forall e :: e in WithoutFile(playlist, file) <==> e in playlist && e.file != file
    ensures multiset(WithoutFile(playlist, file)) <= multiset(playlist)
    ensures |WithoutFile(playlist, file)| <= |playlist|
    ensures Queued(playlist, file) ==> |WithoutFile(playlist, file)| < |playlist|
  {
    if playlist != [] {
      var init, last := playlist[..|playlist| - 1], playlist[|playlist| - 1];
      assert playlist == init + [last];
      WithoutFileMembers(init, file);
      if Queued(playlist, file) && last.file != file {
        var e :| e in playlist && e.file == file;
        assert e in init;
      }
    }
  }

  /** Appending an entry with no more votes than any entry keeps the queue in vote order. */
  lemma SortedAppend(r: seq<Entry>, x: Entry)
    requires SortedByVotes(r)
    requires forall y :: y in r ==> y.votos >= x.votos
    ensures SortedByVotes(r + [x])
  {
    forall i, j | 0 <= i < j < |r + [x]| ensures (r + [x])[i].votos >= (r + [x])[j].votos {
      if j == |r| {
        assert (r + [x])[i] in r;
      }
    }
  }

  /** Removing one file keeps the queue in vote order. */
  lemma {:induction false} WithoutFileSorted(playlist: seq<Entry>, file: string)
    requires SortedByVotes(playlist)
    ensures SortedByVotes(WithoutFile(playlist, file))
  {
    if playlist != [] {
      var init, last := playlist[..|playlist| - 1], playlist[|playlist| - 1];
      SortedPrefix(playlist, |playlist| - 1);
      WithoutFileSorted(init, file);
      var r := WithoutFile(init, file);
      if last.file != file {
        WithoutFileMembers(init, file);
        forall x | x in r ensures x.votos >= last.votos {
          var i :| 0 <= i < |init| && init[i] == x;
          assert playlist[i] == x;
        }
        SortedAppend(r, last);
        assert WithoutFile(playlist, file) == r + [last];
      } else {
        assert WithoutFile(playlist, file) == r;
      }
    }
  }

  /** Removing one file keeps the files of the queue distinct. */
  lemma {:induction false} WithoutFileUnique(playlist: seq<Entry>, file: string)
    requires UniqueFiles(playlist)
    ensures UniqueFiles(WithoutFile(playlist, file))
  {
    if playlist != [] {
      var init, last := playlist[..|playlist| - 1], playlist[|playlist| - 1];
      WithoutFileUnique(init, file);
      WithoutFileMembers(init, file);
      var r := WithoutFile(init, file);
      if last.file != file {
        assert !Queued(r, last.file) by {
          forall x | x in r ensures x.file != last.file {
            assert x in init;
          }
        }
        UniqueAppend(r, last);
        assert WithoutFile(playlist, file) == r + [last];
      } else {
        assert WithoutFile(playlist, file) == r;
      }
    }
  }

  /** Shifting the head off a queue in vote order leaves it in order: sorting again changes
   *  nothing. */
  lemma SortedTailIsFixpoint(s: seq<Entry>)
    requires s != [] && SortByVotes(s) == s
    ensures SortByVotes(s[1..]) == s[1..]
  {
    SortByVotesSorted(s);
    SortedSuffix(s, 1);
    SortedIsFixpoint(s[1..]);
  }

  /** Filtering a file out of a queue in vote order leaves it in order: sorting again changes
   *  nothing. */
  lemma SortedWithoutIsFixpoint(s: seq<Entry>, file: string)
    requires SortByVotes(s) == s
    ensures SortByVotes(WithoutFile(s, file)) == WithoutFile(s, file)
  {
    SortByVotesSorted(s);
    WithoutFileSorted(s, file);
    SortedIsFixpoint(WithoutFile(s, file));
  }

  lemma UniqueSuffix(s: seq<Entry>, n: nat)
    requires UniqueFiles(s) && n <= |s|
    ensures UniqueFiles(s[n..])
  {
    UniqueFilesMeaning(s);
    UniqueFilesMeaning(s[n..]);
  }

  /** Removing a file that no entry has changes nothing. */
  lemma {:induction false} WithoutAbsentFile(s: seq<Entry>, file: string)
    requires forall i :: 0 <= i < |s| ==> s[i].file != file
    ensures WithoutFile(s, file) == s
  {
    if s != [] {
      var init := s[..|s| - 1];
      WithoutAbsentFile(init, file);
      assert s == init + [s[|s| - 1]];
    }
  }

  /** Removing a file works entry by entry. */
  lemma {:induction false} WithoutFileAppend(a: seq<Entry>, b: seq<Entry>, file: string)
    ensures WithoutFile(a + b, file) == WithoutFile(a, file) + WithoutFile(b, file)
  {
    if b == [] {
      assert a + b == a;
    } else {
      var init, last := b[..|b| - 1], b[|b| - 1];
      WithoutFileAppend(a, init, file);
      assert (a + b)[..|a + b| - 1] == a + init;
      assert (a + b)[|a + b| - 1] == last;
    }
  }

  /** When files are distinct, removing the head's file drops exactly the head. */
  lemma {:induction false} WithoutHeadFile(playlist: seq<Entry>)
    requires playlist != [] && UniqueFiles(playlist)
    ensures WithoutFile(playlist, playlist[0].file) == playlist[1..]
  {
    var n := |playlist|;
    var init, last := playlist[..n - 1], playlist[n - 1];
    if n == 1 {
      assert WithoutFile(init, playlist[0].file) == [];
    } else {
      assert init[0] == playlist[0] && init[0] in init;
      WithoutHeadFile(init);
      assert init[1..] + [last] == playlist[1..];
    }
  }

  // ---------------------------------------------------------------------------
  // Proposing and voting (kodi_jukebox_server.js:193-217)

  /** Why a request is turned away, in the order the handlers check. */
  datatype Rejection =
    | MissingData    // "Faltan datos"
    | AlreadyVoted   // "Ya has votado/propuesto"
    | AlreadyQueued  // "Ya está en cola"
    | UnknownSong    // "Canción no encontrada." (not in the library)
    | NotQueued      // "Canción no encontrada" (404, not in the queue)

  datatype Verdict = Accepted | Rejected(reason: Rejection)

  /** `votantes[userId]` is truthy: the user holds the one proposal-or-vote slot. */
  predicate HasVoterRecord(votantes: map<string, string>, user: string)
  {
    user in votantes && votantes[user] != ""
  }

  /** The checks of `/proponer`, in their order. */
  function ProposeVerdict(playlist: seq<Entry>, votantes: map<string, string>, library: seq<Song>,
                          name: string, file: string, user: string): (v: Verdict)
    ensures v == Accepted <==> name != "" && file != "" && user != "" && !HasVoterRecord(votantes, user)
                               && !Queued(playlist, file) && InLibrary(library, file)
  {
    if name == "" || file == "" || user == "" then Rejected(MissingData)
    else if HasVoterRecord(votantes, user) then Rejected(AlreadyVoted)
    else if Queued(playlist, file) then Rejected(AlreadyQueued)
    else if !InLibrary(library, file) then Rejected(UnknownSong)
    else Accepted
  }

  /** `playlist.findIndex(c => c.file === file)`: the first entry with that file, -1 if none. */
  function FindIndex(playlist: seq<Entry>, file: string): (k: int)
    ensures -1 <= k < |playlist|
    ensures k == -1 <==> !Queued(playlist, file)
    ensures k >= 0 ==> playlist[k].file == file && forall i :: 0 <= i < k ==> playlist[i].file != file
  {
    if playlist == [] then -1
    else if playlist[0].file == file then 0
    else
      var k := FindIndex(playlist[1..], file);
      assert forall e :: e in playlist ==> e == playlist[0] || e in playlist[1..];
      if k == -1 then -1 else k + 1
  }

  /** The checks of `/votar`, in their order. */
  function VoteVerdict(playlist: seq<Entry>, votantes: map<string, string>, file: string, user: string): (v: Verdict)
    ensures v == Accepted <==> file != "" && user != "" && !HasVoterRecord(votantes, user) && Queued(playlist, file)
  {
    if file == "" || user == "" then Rejected(MissingData)
    else if HasVoterRecord(votantes, user) then Rejected(AlreadyVoted)
    else if FindIndex(playlist, file) == -1 then Rejected(NotQueued)
    else Accepted
  }

  /** `playlist[k].votos++`. */
  function AddVote(playlist: seq<Entry>, k: nat): seq<Entry>
    requires k < |playlist|
  {
    playlist[k := playlist[k].(votos := playlist[k].votos + 1)]
  }

  /** In a queue with distinct files a vote adds one to the entry with that file and changes
   *  no other entry. */
  lemma VoteTouchesOnlyItsEntry(playlist: seq<Entry>, file: string)
    requires UniqueFiles(playlist) && Queued(playlist, file)
    ensures FindIndex(playlist, file) >= 0
    ensures forall i :: 0 <= i < |playlist| ==>
              AddVote(playlist, FindIndex(playlist, file))[i]
                == if playlist[i].file == file then playlist[i].(votos := playlist[i].votos + 1) else playlist[i]
  {
    UniqueFilesMeaning(playlist);
  }

  /** An accepted proposal adds exactly one entry, the new one, and changes no other entry. */
  lemma ProposalAddsOneEntry(playlist: seq<Entry>, e: Entry)
    ensures multiset(SortByVotes(playlist + [e])) == multiset(playlist) + multiset{e}
    ensures |SortByVotes(playlist + [e])| == |playlist| + 1
  {
    SortByVotesPermutes(playlist + [e]);
  }

  /** An accepted proposal keeps the files of the queue distinct. */
  lemma ProposeKeepsFilesUnique(playlist: seq<Entry>, votantes: map<string, string>, library: seq<Song>,
                                name: string, file: string, user: string)
    requires UniqueFiles(playlist)
    requires ProposeVerdict(playlist, votantes, library, name, file, user) == Accepted
    ensures UniqueFiles(SortByVotes(playlist + [Entry(name, file, 1, user)]))
  {
    UniqueAppend(playlist, Entry(name, file, 1, user));
    SortByVotesUnique(playlist + [Entry(name, file, 1, user)]);
  }

  /** An accepted vote keeps the files of the queue distinct. */
  lemma VoteKeepsFilesUnique(playlist: seq<Entry>, votantes: map<string, string>, file: string, user: string)
    requires UniqueFiles(playlist)
    requires VoteVerdict(playlist, votantes, file, user) == Accepted
    ensures FindIndex(playlist, file) >= 0
    ensures UniqueFiles(SortByVotes(AddVote(playlist, FindIndex(playlist, file))))
  {
    var voted := AddVote(playlist, FindIndex(playlist, file));
    assert forall i :: 0 <= i < |playlist| ==> voted[i].file == playlist[i].file;
    UniqueFilesMeaning(playlist);
    UniqueFilesMeaning(voted);
    SortByVotesUnique(voted);
  }

  /** Once a user has proposed or voted for a file, every further proposal or vote of theirs
   *  that carries its data is turned away as already acted, whatever the queue holds. */
  lemma OneActionPerUser(votantes: map<string, string>, user: string, file: string,
                         playlist: seq<Entry>, library: seq<Song>, name2: string, file2: string)
    requires file != "" && name2 != "" && file2 != "" && user != ""
    ensures ProposeVerdict(playlist, votantes[user := file], library, name2, file2, user) == Rejected(AlreadyVoted)
    ensures VoteVerdict(playlist, votantes[user := file], file2, user) == Rejected(AlreadyVoted)
  {
  }

  // ---------------------------------------------------------------------------
  // After a play (kodi_jukebox_server.js:269-273)

  /** The voter map after deleting every user whose recorded file is `file`. */
  function WithoutVotersOf(votantes: map<string, string>, file: string): map<string, string>
  {
    map u | u in votantes && votantes[u] != file :: votantes[u]
  }

  /** The purge keeps exactly the records for other files, each unchanged. */
  lemma WithoutVotersOfMembers(votantes: map<string, string>, file: string)
    ensures forall u :: u in WithoutVotersOf(votantes, file) <==> u in votantes && votantes[u] != file
    ensures forall u :: u in WithoutVotersOf(votantes, file) ==> WithoutVotersOf(votantes, file)[u] == votantes[u]
  {
  }

  /** The `for...of` over `Object.entries(votantes)` that collects the users to delete. */
  method VotersOf(votantes: map<string, string>, file: string) returns (users: set<string>)
    ensures forall u :: u in users <==> u in votantes && votantes[u] == file
  {
    users := {};
    var pending := votantes.Keys;
    while pending != {}
      invariant pending <= votantes.Keys
      invariant forall u :: u in users <==> u in votantes && u !in pending && votantes[u] == file
      decreases pending
    {
      var u :| u in pending;
      if votantes[u] == file {
        users := users + {u};
      }
      pending := pending - {u};
    }
  }

  /** After the purge a user holds a slot exactly when they held one for another file: the
   *  voters of the played file may propose or vote again, no one else is affected. */
  lemma PurgeFreesExactlyItsVoters(votantes: map<string, string>, file: string, user: string)
    ensures HasVoterRecord(WithoutVotersOf(votantes, file), user)
        <==> HasVoterRecord(votantes, user) && votantes[user] != file
  {
  }

  /** A queue head dropped after a failed play keeps its voters' slots: its file is no longer
   *  queued, and each of those users is turned away as already acted on every later
   *  proposal or vote. */
  lemma DroppedHeadKeepsItsVoters(q: seq<Entry>, votantes: map<string, string>, user: string,
                                  library: seq<Song>, name2: string, file2: string)
    requires q != [] && UniqueFiles(q)
    requires user in votantes && votantes[user] == q[0].file && q[0].file != ""
    requires user != "" && name2 != "" && file2 != ""
    ensures !Queued(q[1..], q[0].file)
    ensures ProposeVerdict(q[1..], votantes, library, name2, file2, user) == Rejected(AlreadyVoted)
    ensures VoteVerdict(q[1..], votantes, file2, user) == Rejected(AlreadyVoted)
  {
    UniqueFilesMeaning(q);
    forall e | e in q[1..] ensures e.file != q[0].file {
      var i :| 0 <= i < |q[1..]| && q[1..][i] == e;
      assert q[i + 1] == e;
    }
  }

  // ---------------------------------------------------------------------------
  // Random fallback (kodi_jukebox_server.js:280-283)

  /** `library.filter(c => c.file !== file)`. */
  function OtherThan(library: seq<Song>, file: string): (r: seq<Song>)
    ensures forall s :: s in r <==> s in library && s.file != file
  {
    if library == [] then []
    else
      var init, last := library[..|library| - 1], library[|library| - 1];
      assert library == init + [last];
      OtherThan(init, file) + (if last.file != file then [last] else [])
  }

  /** When every item has the file, the filter leaves nothing. */
  lemma {:induction false} OtherThanNone(library: seq<Song>, file: string)
    requires forall s :: s in library ==> s.file == file
    ensures OtherThan(library, file) == []
  {
    if library != [] {
      var init := library[..|library| - 1];
      assert library == init + [library[|library| - 1]];
      OtherThanNone(init, file);
    }
  }

  /** The items the random pick chooses from: the library without the file that just
   *  finished, unless that leaves nothing or the library has a single item. */
  function RandomCandidates(library: seq<Song>, last: Option<string>): (c: seq<Song>)
    ensures forall s :: s in c ==> s in library
    ensures |library| > 0 ==> |c| > 0
  {
    if last.Some? && last.value != "" && |library| > 1 then
      var others := OtherThan(library, last.value);
      if others == [] then library else others
    else library
  }

  /** With a last-played file and more than one item, the pick never repeats that file
   *  unless every item has it, and then the whole library is offered; otherwise the whole
   *  library is offered. */
  lemma RandomPickAvoidsLast(library: seq<Song>, last: Option<string>)
    ensures last.Some? && last.value != "" && |library| > 1 ==>
              if exists s :: s in library && s.file != last.value
              then forall s :: s in RandomCandidates(library, last) ==> s.file != last.value
              else RandomCandidates(library, last) == library
    ensures !(last.Some? && last.value != "" && |library| > 1) ==> RandomCandidates(library, last) == library
  {
    if last.Some? && last.value != "" && |library| > 1 {
      var others := OtherThan(library, last.value);
      if s :| s in library && s.file != last.value {
        assert s in others;
      } else {
        OtherThanNone(library, last.value);
      }
    }
  }

  /** `Math.floor(random * n)` for a `random` drawn from [0, 1). */
  function PickIndex(random: real, n: nat): (k: nat)
    requires 0.0 <= random < 1.0
    ensures n > 0 ==> k < n
  {
    assert 0.0 <= random * n as real <= n as real;
    assert n > 0 ==> random * n as real < n as real;
    (random * n as real).Floor
  }

  // ---------------------------------------------------------------------------
  // Detection (kodi_jukebox_server.js:301-302)

  /** The `result.item` of Kodi's `Player.GetItem` reply. */
  datatype PlayerItem = NoItem | Item(title: string, file: string)

  /** `nuevoSonando`: the observed item, named by its title or else by its base name without
   *  extension; nothing when the reply carries no file. */
  function ObservedSong(item: PlayerItem): (r: Option<Song>)
    ensures r.Some? <==> item.Item? && item.file != ""
    ensures r.Some? ==> r.value.file == item.file
    ensures r.Some? && item.title != "" ==> r.value.name == item.title
    ensures r.Some? && item.title == "" ==> r.value.name <= Basename(item.file)
  {
    if item.Item? && item.file != "" then
      Some(Song(if item.title != "" then item.title else StripExtension(Basename(item.file)), item.file))
    else None
  }

  /** With no title, the observed item is named by the base name of its path without the
   *  extension. */
  lemma ObservedSongFromPath(dir: string, base: string, ext: string)
    requires NoSeparator(base + "." + ext)
    requires ext != [] && forall i :: 0 <= i < |ext| ==> ExtensionChar(ext[i])
    ensures ObservedSong(Item("", dir + "/" + base + "." + ext)) == Some(Song(base, dir + "/" + base + "." + ext))
  {
    var name := base + "." + ext;
    assert dir + "/" + base + "." + ext == dir + "/" + name;
    BasenameOfJoin(dir, name);
    StripExtensionRoundTrip(base, ext);
  }

  // ---------------------------------------------------------------------------
  // Loading a saved state (kodi_jukebox_server.js:150-168)

  /** The shape of the parsed `playlist` field. */
  datatype SavedPlaylist = PlaylistArray(entries: seq<Entry>) | NotAnArray

  /** The shape of the parsed `votantes` field: a plain object, an array (also of type
   *  'object' in JavaScript), or anything else (missing, null, a string, a number...). */
  datatype SavedVoters = VotersObject(votes: map<string, string>) | VotersArray(items: seq<string>) | NotAnObject

  /** The shape of the parsed `actualSonando` field: an object with label and file, or
   *  anything else (null, missing, a scalar, an array, none of which has a `file`). */
  datatype SavedSong = SongObject(song: Song) | NotASong

  datatype SavedState = SavedState(playlist: SavedPlaylist, voters: SavedVoters, playing: SavedSong)

  /** What reading the state file gives: no file, a file that does not parse (or parses to
   *  `null`, whose fields cannot be read), or a parsed record. */
  datatype LoadInput = NoFile | Unreadable | Parsed(saved: SavedState)

  function DigitChar(d: nat): char
    requires d < 10
  {
    "0123456789"[d]
  }

  lemma DigitCharInjective(x: nat, y: nat)
    requires x < 10 && y < 10 && DigitChar(x) == DigitChar(y)
    ensures x == y
  {
  }

  /** The decimal property name of an array index. */
  function IndexKey(i: nat): (r: string)
    ensures |r| > 0
  {
    if i < 10 then [DigitChar(i)] else IndexKey(i / 10) + [DigitChar(i % 10)]
  }

  lemma {:induction false} IndexKeyInjective(i: nat, j: nat)
    requires IndexKey(i) == IndexKey(j)
    ensures i == j
  {
    var a, b := IndexKey(i), IndexKey(j);
    assert a[|a| - 1] == DigitChar(i % 10) && b[|b| - 1] == DigitChar(j % 10);
    DigitCharInjective(i % 10, j % 10);
    assert |a| == 1 <==> i < 10;
    assert |b| == 1 <==> j < 10;
    if i >= 10 && j >= 10 {
      assert a[..|a| - 1] == IndexKey(i / 10) && b[..|b| - 1] == IndexKey(j / 10);
      IndexKeyInjective(i / 10, j / 10);
    }
  }

  function LoadedPlaylist(p: SavedPlaylist): seq<Entry>
  {
    if p.PlaylistArray? then p.entries else []
  }

  function LoadedVoters(v: SavedVoters): map<string, string>
  {
    match v
    case VotersObject(votes) => votes
    case VotersArray(items) =>
      assert forall i, j :: 0 <= i < |items| && 0 <= j < |items| && IndexKey(i) == IndexKey(j) ==> i == j by {
        forall i, j | 0 <= i < |items| && 0 <= j < |items| && IndexKey(i) == IndexKey(j) ensures i == j {
          IndexKeyInjective(i, j);
        }
      }
      map i | 0 <= i < |items| :: IndexKey(i) := items[i]
    case NotAnObject => map[]
  }

  function LoadedPlaying(s: SavedSong): (r: Option<Song>)
    ensures r.Some? ==> r.value.file != ""
  {
    if s.SongObject? && s.song.file != "" then Some(s.song) else None
  }

  /** What `JSON.stringify(jukebox)` writes, as the loader sees it once parsed back; the
   *  playlist is sorted first. */
  function Snapshot(playlist: seq<Entry>, votantes: map<string, string>, playing: Option<Song>): SavedState
  {
    SavedState(PlaylistArray(SortByVotes(playlist)), VotersObject(votantes),
               if playing.Some? then SongObject(playing.value) else NotASong)
  }

  /** Saving then loading gives back the sorted queue, the same voters and the same item
   *  playing, as long as a playing item has a file. The record is taken as already parsed,
   *  so this shows only that the loader keeps everything the saver writes; the JSON text
   *  in between is not modelled. */
  lemma SnapshotRoundTrip(playlist: seq<Entry>, votantes: map<string, string>, playing: Option<Song>)
    requires playing.Some? ==> playing.value.file != ""
    ensures var saved := Snapshot(playlist, votantes, playing);
            LoadedPlaylist(saved.playlist) == SortByVotes(playlist)
            && LoadedVoters(saved.voters) == votantes
            && LoadedPlaying(saved.playing) == playing
  {
  }
}
