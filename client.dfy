/** The browser client's selection rules (script.js), apart from the DOM they feed: the
 *  cleaned library, the filtered library list, and when the Propose and Vote buttons are
 *  enabled. The client sees the server's `playlist`, `votantes` and `actualSonando`. */
module Client {
  import opened Media
  import opened Queue

  // ---------------------------------------------------------------------------
  // Cleaning the library (script.js:27-34)

  /** The label the client shows: the given label without one media extension or, when that
   *  is empty, the file's base name without one media extension. */
  function ClientLabel(f: RawFile): (r: string)
    ensures r <= f.name || r <= Basename(f.file)
  {
    var fromLabel := StripMediaExtension(f.name);
    if fromLabel != "" then fromLabel else StripMediaExtension(Basename(f.file))
  }

  /** What the cleaning makes of one received entry. */
  function Cleaned(f: RawFile): Song
  {
    Song(ClientLabel(f), f.file)
  }

  /** `data.files.map(...).filter(Boolean)`: entries without a file are dropped, the rest keep
   *  their file and get the client's label, in the order received. */
  function CleanLibrary(files: seq<RawFile>): (r: seq<Song>)
    ensures |r| <= |files|
    ensures forall k :: 0 <= k < |r| ==> r[k].file != ""
  {
    if files == [] then []
    else
      var f := files[|files| - 1];
      CleanLibrary(files[..|files| - 1]) + (if f.file != "" then [Cleaned(f)] else [])
  }

  /** c is what the cleaning makes of some received entry with a file. */
  predicate CleanedFrom(files: seq<RawFile>, c: Song)
  {
    exists f :: f in files && f.file != "" && c == Cleaned(f)
  }

  /** A song is in the cleaned library exactly when it is the cleaned form of some received
   *  entry that has a file. */
  lemma {:induction false} CleanLibraryMembership(files: seq<RawFile>, c: Song)
    ensures c in CleanLibrary(files) <==> CleanedFrom(files, c)
  {
    if files != [] {
      var init, f := files[..|files| - 1], files[|files| - 1];
      assert files == init + [f];
      CleanLibraryMembership(init, c);
      var tail := if f.file != "" then [Cleaned(f)] else [];
      assert CleanLibrary(files) == CleanLibrary(init) + tail;
      assert CleanedFrom(files, c) <==> CleanedFrom(init, c) || (f.file != "" && c == Cleaned(f)) by {
        if CleanedFrom(files, c) {
          var g :| g in files && g.file != "" && c == Cleaned(g);
          assert g in init || g == f;
        }
        if CleanedFrom(init, c) {
          var g :| g in init && g.file != "" && c == Cleaned(g);
          assert g in files;
        }
      }
    }
  }

  /** A label carrying a media extension, in any letter case, loses exactly that extension. */
  lemma ClientLabelStripsExtension(base: string, ext: string, file: string)
    requires base != [] && Lower(ext) in MediaExtensions
    ensures ClientLabel(RawFile(base + "." + ext, file)) == base
  {
    StripMediaExtensionRoundTrip(base, ext);
  }

  /** Without a label, the base name of the file path is shown, without its media extension. */
  lemma ClientLabelFromPath(dir: string, base: string, ext: string)
    requires NoSeparator(base + "." + ext) && Lower(ext) in MediaExtensions
    ensures ClientLabel(RawFile("", dir + "/" + base + "." + ext)) == base
  {
    assert dir + "/" + base + "." + ext == dir + "/" + (base + "." + ext);
    BasenameOfJoin(dir, base + "." + ext);
    StripMediaExtensionRoundTrip(base, ext);
  }

  // ---------------------------------------------------------------------------
  // The server's library as the client receives it (script.js:24-27,
  // kodi_jukebox_server.js:188-190)

  /** What `POST /kodi` hands the client: every item of the server's library, in order, as an
   *  entry with the server's label and file. */
  function Served(library: seq<Song>): seq<RawFile>
  {
    seq(|library|, k requires 0 <= k < |library| => RawFile(library[k].name, library[k].file))
  }

  /** The client keeps the label the server derived unless that label itself still ends in a
   *  media extension. */
  lemma ClientKeepsServerLabel(f: RawFile)
    requires IsMediaFile(f.file) && !IsMediaFile(ServerLabel(f))
    ensures ClientLabel(RawFile(ServerLabel(f), f.file)) == ServerLabel(f)
  {
    var derived := ServerLabel(f);
    if derived == "" {
      var b := Basename(f.file);
      BasenameOfMediaFile(f.file);
      StripExtensionOfMediaFile(b);
      assert StripExtension(f.name) == "";
      assert StripMediaExtension(b) == "";
    }
  }

  /** A server label that still ends in a media extension loses it on the client too: Kodi's
   *  label "a.mp3.mp3" is stored by the server as "a.mp3" and shown by the client as "a". */
  lemma ClientStripsServerLabelAgain(base: string, ext: string, ext2: string, file: string)
    requires base != [] && Lower(ext) in MediaExtensions
    requires ext2 != [] && forall i :: 0 <= i < |ext2| ==> ExtensionChar(ext2[i])
    ensures ServerLabel(RawFile(base + "." + ext + "." + ext2, file)) == base + "." + ext
    ensures ClientLabel(RawFile(base + "." + ext, file)) == base
  {
    ServerLabelStripsExtension(base + "." + ext, ext2, file);
    ClientLabelStripsExtension(base, ext, file);
  }

  /** Cleaning a list whose every item has a file and a label the client keeps gives back the
   *  same list. */
  lemma {:induction false} CleanServedLibrary(library: seq<Song>)
    requires forall s :: s in library ==> s.file != "" && ClientLabel(RawFile(s.name, s.file)) == s.name
    ensures CleanLibrary(Served(library)) == library
  {
    if library != [] {
      var init, last := library[..|library| - 1], library[|library| - 1];
      var served := Served(library);
      assert library == init + [last];
      assert served[..|served| - 1] == Served(init);
      assert served[|served| - 1] == RawFile(last.name, last.file);
      assert last in library;
      assert Cleaned(RawFile(last.name, last.file)) == last;
      assert CleanLibrary(served) == CleanLibrary(Served(init)) + [last];
      forall s | s in init ensures s in library {
      }
      CleanServedLibrary(init);
    }
  }

  /** When no label the server derived still ends in a media extension, the client's library
   *  is exactly the server's: the same items, labels and order. */
  lemma ClientLibraryIsServerLibrary(files: seq<RawFile>)
    requires forall f :: f in files && IsMediaFile(f.file) ==> !IsMediaFile(ServerLabel(f))
    ensures CleanLibrary(Served(IngestLibrary(files))) == IngestLibrary(files)
  {
    var library := IngestLibrary(files);
    forall s | s in library ensures s.file != "" && ClientLabel(RawFile(s.name, s.file)) == s.name {
      IngestLibrarySongs(files, s);
      var f :| f in files && IsMediaFile(f.file) && s == Song(ServerLabel(f), f.file);
      ClientKeepsServerLabel(f);
    }
    CleanServedLibrary(library);
  }

  /** Every song of the client's list has a file of the server's library. */
  lemma CleanServedInLibrary(library: seq<Song>, c: Song)
    requires c in CleanLibrary(Served(library))
    ensures InLibrary(library, c.file)
  {
    CleanLibraryMembership(Served(library), c);
    var f :| f in Served(library) && f.file != "" && c == Cleaned(f);
    var k :| 0 <= k < |Served(library)| && Served(library)[k] == f;
    assert library[k].file == c.file;
  }

  // ---------------------------------------------------------------------------
  // The search text (script.js:80)

  /** The characters `String.prototype.trim` removes: white space and line terminators. */
  predicate IsWhitespace(c: char)
  {
    c == ' ' || c == '\t' || c == '\n' || c == '\r' || c == '\U{000B}' || c == '\U{000C}'
    || c == '\U{00A0}' || c == '\U{1680}' || ('\U{2000}' <= c <= '\U{200A}')
    || c == '\U{2028}' || c == '\U{2029}' || c == '\U{202F}' || c == '\U{205F}'
    || c == '\U{3000}' || c == '\U{FEFF}'
  }

  predicate AllWhitespace(s: string)
  {
    forall i :: 0 <= i < |s| ==> IsWhitespace(s[i])
  }

  /** Number of white-space characters at the start of s. */
  function LeadingWhitespace(s: string): (k: nat)
    ensures k <= |s|
    ensures forall i :: 0 <= i < k ==> IsWhitespace(s[i])
    ensures k < |s| ==> !IsWhitespace(s[k])
  {
    if s == [] || !IsWhitespace(s[0]) then 0
    else 1 + LeadingWhitespace(s[1..])
  }

  /** Number of white-space characters at the end of s. */
  function TrailingWhitespace(s: string): (k: nat)
    ensures k <= |s|
    ensures forall i :: |s| - k <= i < |s| ==> IsWhitespace(s[i])
    ensures k < |s| ==> !IsWhitespace(s[|s| - k - 1])
  {
    if s == [] || !IsWhitespace(s[|s| - 1]) then 0
    else 1 + TrailingWhitespace(s[..|s| - 1])
  }

  /** `trim()`: s without white space at either end. */
  function Trim(s: string): (r: string)
    ensures exists a, b :: 0 <= a <= b <= |s| && r == s[a..b] && AllWhitespace(s[..a]) && AllWhitespace(s[b..])
    ensures r != [] ==> !IsWhitespace(r[0]) && !IsWhitespace(r[|r| - 1])
    ensures r == [] <==> AllWhitespace(s)
  {
    var a := LeadingWhitespace(s);
    if a == |s| then
      assert s[..a] == s && s[a..] == [];
      []
    else
      var t := TrailingWhitespace(s);
      assert !IsWhitespace(s[a]);
      assert a < |s| - t;
      s[a..|s| - t]
  }

  /** `toLowerCase().trim()` of the search box. */
  function SearchText(input: string): string
  {
    Trim(Lower(input))
  }

  /** t occurs in s starting at position i. */
  predicate OccursAt(s: string, t: string, i: nat)
  {
    i + |t| <= |s| && s[i..i + |t|] == t
  }

  /** `s.includes(t)`: t occurs in s at some position. */
  predicate Includes(s: string, t: string)
  {
    exists i: nat :: i <= |s| && OccursAt(s, t, i)
  }

  // ---------------------------------------------------------------------------
  // The library list (script.js:80-87)

  /** `currentlyPlayingFile = state.actualSonando?.file || null` (script.js:183). */
  function PlayingFile(actual: Option<Song>): (r: Option<string>)
    ensures r.Some? <==> actual.Some? && actual.value.file != ""
    ensures r.Some? ==> r.value == actual.value.file
  {
    if actual.Some? && actual.value.file != "" then Some(actual.value.file) else None
  }

  /** The filter predicate of `actualizarBiblioteca` for one song, with the search text
   *  already lower-cased and trimmed. */
  predicate Visible(c: Song, playlist: seq<Entry>, playing: Option<string>, search: string)
  {
    && !Queued(playlist, c.file)
    && (playing.None? || c.file != playing.value)
    && (search == "" || Includes(Lower(c.name), search))
  }

  /** `todasLasCanciones.filter(...)` for a search text `search` that is already lower-cased
   *  and trimmed: the songs offered for proposal, in library order. */
  function VisibleLibrary(todas: seq<Song>, playlist: seq<Entry>, playing: Option<string>, search: string): (r: seq<Song>)
    ensures |r| <= |todas|
  {
    if todas == [] then []
    else
      var c := todas[|todas| - 1];
      VisibleLibrary(todas[..|todas| - 1], playlist, playing, search)
      + (if Visible(c, playlist, playing, search) then [c] else [])
  }

  /** A song is listed exactly when it is in the library and passes the filter. */
  lemma {:induction false} VisibleLibraryMembers(todas: seq<Song>, playlist: seq<Entry>, playing: Option<string>, search: string)
    ensures forall c :: c in VisibleLibrary(todas, playlist, playing, search)
                        <==> c in todas && Visible(c, playlist, playing, search)
  {
    if todas != [] {
      var init, c := todas[..|todas| - 1], todas[|todas| - 1];
      VisibleLibraryMembers(init, playlist, playing, search);
      assert todas == init + [c];
    }
  }

  /** `actualizarBiblioteca` once the library is loaded: the search box's text is lower-cased
   *  and trimmed once, then the library is filtered against the client's copy of the state. */
  function LibraryList(todas: seq<Song>, playlist: seq<Entry>, actual: Option<Song>, input: string): seq<Song>
  {
    VisibleLibrary(todas, playlist, PlayingFile(actual), SearchText(input))
  }

  /** No listed song has a queued file, nor the playing file. */
  lemma VisibleLibraryHidesQueuedAndPlaying(todas: seq<Song>, playlist: seq<Entry>, actual: Option<Song>,
                                           search: string, c: Song)
    requires c in VisibleLibrary(todas, playlist, PlayingFile(actual), search)
    ensures c in todas
    ensures forall e :: e in playlist ==> e.file != c.file
    ensures actual.Some? && actual.value.file != "" ==> c.file != actual.value.file
  {
    VisibleLibraryMembers(todas, playlist, PlayingFile(actual), search);
  }

  /** When nothing is playing, the playing-file condition hides nothing. */
  lemma NothingPlayingHidesNothing(todas: seq<Song>, playlist: seq<Entry>, search: string, c: Song)
    requires c in todas && !Queued(playlist, c.file)
    ensures c in VisibleLibrary(todas, playlist, PlayingFile(None), search)
            <==> c in VisibleLibrary(todas, [], None, search)
  {
    VisibleLibraryMembers(todas, playlist, None, search);
    VisibleLibraryMembers(todas, [], None, search);
  }

  /** An empty search shows every song that is neither queued nor playing; any other search
   *  shows such a song exactly when its lower-cased label contains the search text. */
  lemma VisibleLibrarySearch(todas: seq<Song>, playlist: seq<Entry>, playing: Option<string>, search: string, c: Song)
    requires c in todas && !Queued(playlist, c.file) && (playing.None? || c.file != playing.value)
    ensures search == "" ==> c in VisibleLibrary(todas, playlist, playing, search)
    ensures search != "" ==>
              (c in VisibleLibrary(todas, playlist, playing, search) <==>
               exists i: nat :: i <= |c.name| && OccursAt(Lower(c.name), search, i))
  {
    VisibleLibraryMembers(todas, playlist, playing, search);
    assert |Lower(c.name)| == |c.name|;
  }

  /** The filter works song by song: the list of a concatenation is the concatenation of the
   *  lists, so it keeps the library order. */
  lemma {:induction false} VisibleLibraryAppend(a: seq<Song>, b: seq<Song>, playlist: seq<Entry>,
                                                playing: Option<string>, search: string)
    ensures VisibleLibrary(a + b, playlist, playing, search)
            == VisibleLibrary(a, playlist, playing, search) + VisibleLibrary(b, playlist, playing, search)
  {
    if b != [] {
      var init, last := b[..|b| - 1], b[|b| - 1];
      VisibleLibraryAppend(a, init, playlist, playing, search);
      var ab := a + b;
      assert ab[..|ab| - 1] == a + init;
      assert ab[|ab| - 1] == last;
      var tail := if Visible(last, playlist, playing, search) then [last] else [];
      assert VisibleLibrary(ab, playlist, playing, search) == VisibleLibrary(a + init, playlist, playing, search) + tail;
      assert VisibleLibrary(b, playlist, playing, search) == VisibleLibrary(init, playlist, playing, search) + tail;
    } else {
      assert a + b == a;
    }
  }

  /** The list is a subsequence of the library: `idx` picks, in increasing order, the
   *  library position of each listed song. */
  lemma {:induction false} VisibleLibraryIsSubsequence(todas: seq<Song>, playlist: seq<Entry>,
                                                       playing: Option<string>, search: string)
      returns (idx: seq<nat>)
    ensures |idx| == |VisibleLibrary(todas, playlist, playing, search)|
    ensures forall k :: 0 <= k < |idx| ==>
              idx[k] < |todas| && VisibleLibrary(todas, playlist, playing, search)[k] == todas[idx[k]]
    ensures forall k, l :: 0 <= k < l < |idx| ==> idx[k] < idx[l]
  {
    if todas == [] {
      idx := [];
    } else {
      var init, c := todas[..|todas| - 1], todas[|todas| - 1];
      var rest := VisibleLibraryIsSubsequence(init, playlist, playing, search);
      if Visible(c, playlist, playing, search) {
        idx := rest + [|todas| - 1];
      } else {
        idx := rest;
      }
    }
  }

  // ---------------------------------------------------------------------------
  // Buttons (script.js:61-66, 142-145)

  /** The Propose button of every listed song is enabled iff the user has no voter record. */
  predicate ProposeEnabled(votantes: map<string, string>, user: string)
  {
    !HasVoterRecord(votantes, user)
  }

  /** A queue entry's Vote button is disabled iff the user's record is that entry's file or
   *  the user proposed it. */
  predicate VoteDisabled(votantes: map<string, string>, user: string, e: Entry)
  {
    (user in votantes && votantes[user] == e.file) || e.proposer == user
  }

  /** Proposing a listed song through an enabled button is accepted by the server holding
   *  the same state and the library the client was served, as long as the song has a label. */
  lemma EnabledProposeAccepted(todas: seq<Song>, playlist: seq<Entry>, votantes: map<string, string>,
                               library: seq<Song>, playing: Option<string>, search: string, c: Song, user: string)
    requires todas == CleanLibrary(Served(library))
    requires c in VisibleLibrary(todas, playlist, playing, search)
    requires ProposeEnabled(votantes, user) && user != "" && c.name != ""
    ensures ProposeVerdict(playlist, votantes, library, c.name, c.file, user) == Accepted
  {
    VisibleLibraryMembers(todas, playlist, playing, search);
    CleanServedInLibrary(library, c);
    CleanLibraryMembership(Served(library), c);
  }

  /** A disabled Propose button matches a server that turns the user away. */
  lemma DisabledProposeRejected(playlist: seq<Entry>, votantes: map<string, string>, library: seq<Song>,
                                name: string, file: string, user: string)
    requires !ProposeEnabled(votantes, user)
    ensures ProposeVerdict(playlist, votantes, library, name, file, user) != Accepted
  {
  }

  /** An enabled Vote button on a queued entry leads to an accepted vote exactly when the user
   *  has no voter record; the button does not check the record itself. */
  lemma EnabledVoteVerdict(playlist: seq<Entry>, votantes: map<string, string>, user: string, e: Entry)
    requires e in playlist && e.file != "" && user != ""
    requires !VoteDisabled(votantes, user, e)
    ensures VoteVerdict(playlist, votantes, e.file, user) == Accepted <==> !HasVoterRecord(votantes, user)
  {
    assert FindIndex(playlist, e.file) != -1;
  }

  /** A Vote button disabled because the user already backs that entry matches a server that
   *  rejects the vote as a second action by the same user. */
  lemma DisabledVoteRejected(playlist: seq<Entry>, votantes: map<string, string>, user: string, e: Entry)
    requires e.file != "" && user != ""
    requires user in votantes && votantes[user] == e.file
    ensures VoteDisabled(votantes, user, e)
    ensures VoteVerdict(playlist, votantes, e.file, user) == Rejected(AlreadyVoted)
  {
  }
}
