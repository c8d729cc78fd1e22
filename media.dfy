/** Library items and the string rules the jukebox applies to Kodi file paths and labels.
 *
 *  A JavaScript field that is missing, `undefined`, `null` or the empty string is falsy in
 *  the source; the model writes all of these as the empty string. */
module Media {

  datatype Option<T> = None | Some(value: T)

  /** A library item: a display label and the file path that identifies it. */
  datatype Song = Song(name: string, file: string)

  /** One element of Kodi's `Files.GetDirectory` listing; a `null` element is RawFile("", ""). */
  datatype RawFile = RawFile(name: string, file: string)

  // ---------------------------------------------------------------------------
  // Case folding and extensions

  /** The folding a non-unicode `/i` regular expression applies: only A-Z and a-z meet. */
  function LowerChar(c: char): char
  {
    if 'A' <= c <= 'Z' then (c as int + 32) as char else c
  }

  function Lower(s: string): (r: string)
    ensures |r| == |s|
    ensures forall i :: 0 <= i < |s| ==> r[i] == LowerChar(s[i])
  {
    if s == [] then [] else [LowerChar(s[0])] + Lower(s[1..])
  }

  /** The six extensions the server and the client recognise as media. */
  const MediaExtensions: seq<string> := ["mp4", "mp3", "flac", "ogg", "m4a", "wav"]

  /** The last |t| characters of s fold to t (EndsFoldedMeaning states it index by index). */
  predicate EndsFolded(s: string, t: string)
    decreases |t|
  {
    t == [] || (s != [] && LowerChar(s[|s| - 1]) == t[|t| - 1] && EndsFolded(s[..|s| - 1], t[..|t| - 1]))
  }

  /** s ends with "." followed by ext, letters compared without case. */
  predicate HasExtension(s: string, ext: string)
  {
    |s| > |ext| && s[|s| - |ext| - 1] == '.' && EndsFolded(s, ext)
  }

  /** Length of the trailing ".ext" that /\.(mp4|mp3|flac|ogg|m4a|wav)$/i matches, 0 if none
   *  (MediaSuffixLengthMeaning states what it means). */
  function MediaSuffixLength(s: string): (n: nat)
    ensures n <= |s|
  {
    if HasExtension(s, "flac") then 5
    else if HasExtension(s, "mp4") || HasExtension(s, "mp3") || HasExtension(s, "ogg")
         || HasExtension(s, "m4a") || HasExtension(s, "wav") then 4
    else 0
  }

  /** The extension test of the library filter (kodi_jukebox_server.js:133). */
  predicate IsMediaFile(file: string)
  {
    MediaSuffixLength(file) > 0
  }

  /** `replace(/\.(mp4|mp3|flac|ogg|m4a|wav)$/i, "")`: drops one trailing media extension. */
  function StripMediaExtension(s: string): (r: string)
    ensures r <= s
    ensures r != s <==> IsMediaFile(s)
  {
    s[..|s| - MediaSuffixLength(s)]
  }

  // ---------------------------------------------------------------------------
  // Generic extension and base name

  /** A character that may appear in the extension matched by /\.[^/.]+$/. */
  predicate ExtensionChar(c: char)
  {
    c != '/' && c != '.'
  }

  /** Number of trailing characters that are neither '/' nor '.'. */
  function TrailingExtensionChars(s: string): (k: nat)
    ensures k <= |s|
    ensures forall i :: |s| - k <= i < |s| ==> ExtensionChar(s[i])
    ensures k < |s| ==> !ExtensionChar(s[|s| - k - 1])
  {
    if s == [] || !ExtensionChar(s[|s| - 1]) then 0
    else 1 + TrailingExtensionChars(s[..|s| - 1])
  }

  /** `replace(/\.[^/.]+$/, "")`: removes a final "." followed by one or more characters that
   *  are neither '/' nor '.', and leaves s alone when it has no such ending. */
  function StripExtension(s: string): (r: string)
    ensures r <= s
    ensures r != s ==> |s| - |r| >= 2 && s[|r|] == '.'
                       && forall i :: |r| < i < |s| ==> ExtensionChar(s[i])
    ensures r == s ==> forall j :: 0 <= j < |s| - 1 && s[j] == '.' ==>
                         exists i :: j < i < |s| && !ExtensionChar(s[i])
  {
    var k := TrailingExtensionChars(s);
    if 0 < k < |s| && s[|s| - k - 1] == '.' then s[..|s| - k - 1]
    else
      assert forall j :: 0 <= j < |s| - 1 && s[j] == '.' ==> !ExtensionChar(s[|s| - k - 1]) by {
        forall j | 0 <= j < |s| - 1 && s[j] == '.' ensures !ExtensionChar(s[|s| - k - 1]) {
          assert !ExtensionChar(s[j]);
        }
      }
      s
  }

  /** The separators of `split(/[\\/]/)`. */
  predicate IsSeparator(c: char)
  {
    c == '/' || c == '\\'
  }

  predicate NoSeparator(s: string)
  {
    forall i :: 0 <= i < |s| ==> !IsSeparator(s[i])
  }

  /** `split(/[\\/]/).pop()`: the part of the path after its last '/' or '\'. */
  function Basename(path: string): (r: string)
    ensures |r| <= |path| && r == path[|path| - |r|..]
    ensures NoSeparator(r)
    ensures |r| < |path| ==> IsSeparator(path[|path| - |r| - 1])
  {
    if path == [] || IsSeparator(path[|path| - 1]) then []
    else Basename(path[..|path| - 1]) + [path[|path| - 1]]
  }

  // ---------------------------------------------------------------------------
  // Library ingestion (kodi_jukebox_server.js:132-137)

  /** The label the server derives: the given label without its extension or, when that is
   *  empty, the file's base name without its extension. */
  function ServerLabel(f: RawFile): (r: string)
    ensures r <= f.name || r <= Basename(f.file)
  {
    var fromLabel := StripExtension(f.name);
    if fromLabel != "" then fromLabel else StripExtension(Basename(f.file))
  }

  /** Keeps the entries whose file carries a media extension and gives each a label. */
  function IngestLibrary(files: seq<RawFile>): (r: seq<Song>)
    ensures |r| <= |files|
    ensures forall k :: 0 <= k < |r| ==> IsMediaFile(r[k].file) && r[k].file != ""
  {
    if files == [] then []
    else
      var f := files[|files| - 1];
      IngestLibrary(files[..|files| - 1]) + (if IsMediaFile(f.file) then [Song(ServerLabel(f), f.file)] else [])
  }

  // ---------------------------------------------------------------------------
  // Lemmas

  lemma {:induction false} EndsFoldedMeaning(s: string, t: string)
    ensures EndsFolded(s, t) <==>
              |t| <= |s| && forall i :: 0 <= i < |t| ==> LowerChar(s[|s| - |t| + i]) == t[i]
  {
    if t != [] && s != [] {
      var s', t' := s[..|s| - 1], t[..|t| - 1];
      EndsFoldedMeaning(s', t');
      if |t| <= |s| && forall i :: 0 <= i < |t| ==> LowerChar(s[|s| - |t| + i]) == t[i] {
        forall i | 0 <= i < |t'| ensures LowerChar(s'[|s'| - |t'| + i]) == t'[i] {
          assert s'[|s'| - |t'| + i] == s[|s| - |t| + i];
        }
        assert LowerChar(s[|s| - |t| + (|t| - 1)]) == t[|t| - 1];
      }
    }
  }

  /** base + "." + ext ends with the folded form of ext as its extension. */
  lemma ExtensionOfJoin(base: string, ext: string)
    ensures HasExtension(base + "." + ext, Lower(ext))
  {
    var s, folded := base + "." + ext, Lower(ext);
    EndsFoldedMeaning(s, folded);
    forall i | 0 <= i < |folded| ensures LowerChar(s[|s| - |folded| + i]) == folded[i] {
      assert s[|s| - |folded| + i] == ext[i];
    }
  }

  /** A string whose fourth character from the end is '.' does not end in ".flac". */
  lemma NotFlac(s: string)
    requires |s| >= 4 && s[|s| - 4] == '.'
    ensures !HasExtension(s, "flac")
  {
    var flac := "flac";
    EndsFoldedMeaning(s, flac);
    assert |flac| == 4 && flac[0] == 'f';
    assert LowerChar(s[|s| - |flac| + 0]) == '.';
  }

  /** Stripping one media extension, in any letter case, from base + "." + ext gives back base. */
  lemma StripMediaExtensionRoundTrip(base: string, ext: string)
    requires Lower(ext) in MediaExtensions
    ensures StripMediaExtension(base + "." + ext) == base
  {
    var s := base + "." + ext;
    ExtensionOfJoin(base, ext);
    if |ext| == 3 {
      NotFlac(s);
    }
    assert MediaSuffixLength(s) == |ext| + 1;
    assert s[..|base|] == base;
  }

  /** Stripping the extension of base + "." + ext gives back base. */
  lemma StripExtensionRoundTrip(base: string, ext: string)
    requires ext != [] && forall i :: 0 <= i < |ext| ==> ExtensionChar(ext[i])
    ensures StripExtension(base + "." + ext) == base
  {
    var s := base + "." + ext;
    assert s[|base|] == '.';
    forall i | |base| < i < |s| ensures ExtensionChar(s[i]) {
      assert s[i] == ext[i - |base| - 1];
    }
    assert base == s[..|base|];
  }

  /** MediaSuffixLength is positive exactly when s ends in "." and one of the six extensions,
   *  and then it is the length of that ending. */
  lemma MediaSuffixLengthMeaning(s: string)
    ensures MediaSuffixLength(s) == 0 <==> forall ext :: ext in MediaExtensions ==> !HasExtension(s, ext)
    ensures MediaSuffixLength(s) > 0 ==> exists ext :: ext in MediaExtensions && HasExtension(s, ext)
                                                       && MediaSuffixLength(s) == |ext| + 1
  {
  }

  /** The ending that MediaSuffixLength measures is "." followed by letters and digits only. */
  lemma MediaSuffixChars(s: string)
    ensures forall i :: |s| - MediaSuffixLength(s) < i < |s| ==> ExtensionChar(s[i]) && !IsSeparator(s[i])
    ensures MediaSuffixLength(s) > 0 ==> s[|s| - MediaSuffixLength(s)] == '.'
  {
    var n := MediaSuffixLength(s);
    if n > 0 {
      var ext := if HasExtension(s, "flac") then "flac"
                 else if HasExtension(s, "mp4") then "mp4"
                 else if HasExtension(s, "mp3") then "mp3"
                 else if HasExtension(s, "ogg") then "ogg"
                 else if HasExtension(s, "m4a") then "m4a"
                 else "wav";
      assert HasExtension(s, ext) && n == |ext| + 1;
      EndsFoldedMeaning(s, ext);
      forall i | |s| - n < i < |s| ensures ExtensionChar(s[i]) && !IsSeparator(s[i]) {
        assert LowerChar(s[|s| - |ext| + (i - (|s| - |ext|))]) == ext[i - (|s| - |ext|)];
      }
    }
  }

  /** On a media file the generic extension rule removes exactly the media extension. */
  lemma StripExtensionOfMediaFile(s: string)
    requires IsMediaFile(s)
    ensures StripExtension(s) == StripMediaExtension(s)
  {
    var n := MediaSuffixLength(s);
    MediaSuffixChars(s);
    var base, e := s[..|s| - n], s[|s| - n + 1..];
    assert s == base + "." + e;
    forall i | 0 <= i < |e| ensures ExtensionChar(e[i]) {
      assert e[i] == s[|s| - n + 1 + i];
    }
    StripExtensionRoundTrip(base, e);
  }

  /** The base name of dir + "/" + name is name when name holds no separator. */
  lemma {:induction false} BasenameOfJoin(dir: string, name: string)
    requires NoSeparator(name)
    ensures Basename(dir + "/" + name) == name
  {
    if name == [] {
      assert (dir + "/" + name)[|dir|] == '/';
    } else {
      var last := name[|name| - 1];
      var init := name[..|name| - 1];
      assert dir + "/" + name == (dir + "/" + init) + [last];
      BasenameOfJoin(dir, init);
      assert name == init + [last];
    }
  }

  /** Ingestion works element by element: it keeps the order of the listing. */
  lemma {:induction false} IngestLibraryAppend(a: seq<RawFile>, b: seq<RawFile>)
    ensures IngestLibrary(a + b) == IngestLibrary(a) + IngestLibrary(b)
  {
    if b != [] {
      var init := b[..|b| - 1];
      assert (a + b)[..|a + b| - 1] == a + init;
      assert (a + b)[|a + b| - 1] == b[|b| - 1];
      IngestLibraryAppend(a, init);
    } else {
      assert a + b == a;
    }
  }

  /** Some item of the library has this file. */
  predicate InLibrary(library: seq<Song>, file: string)
  {
    exists k :: 0 <= k < |library| && library[k].file == file
  }

  /** Some entry of the listing has this file. */
  predicate Listed(files: seq<RawFile>, file: string)
  {
    exists i :: 0 <= i < |files| && files[i].file == file
  }

  /** A file is in the ingested library exactly when some listing entry has it and it is a
   *  media file. */
  lemma {:induction false} IngestLibraryMembership(files: seq<RawFile>, file: string)
    ensures InLibrary(IngestLibrary(files), file) <==> IsMediaFile(file) && Listed(files, file)
  {
    if files != [] {
      var init := files[..|files| - 1];
      var f := files[|files| - 1];
      IngestLibraryMembership(init, file);
      var ri := IngestLibrary(init);
      var tail := if IsMediaFile(f.file) then [Song(ServerLabel(f), f.file)] else [];
      assert IngestLibrary(files) == ri + tail;
      assert InLibrary(tail, file) <==> IsMediaFile(f.file) && f.file == file by {
        if InLibrary(tail, file) {
          var k :| 0 <= k < |tail| && tail[k].file == file;
          assert k == 0;
        }
        if IsMediaFile(f.file) && f.file == file {
          assert tail[0].file == file;
        }
      }
      assert Listed(files, file) <==> Listed(init, file) || f.file == file by {
        if Listed(files, file) {
          var i :| 0 <= i < |files| && files[i].file == file;
          if i < |init| { assert init[i] == files[i]; }
        }
        if Listed(init, file) {
          var i :| 0 <= i < |init| && init[i].file == file;
          assert files[i] == init[i];
        }
      }
      InLibraryAppend(ri, tail, file);
    }
  }

  lemma InLibraryAppend(a: seq<Song>, b: seq<Song>, file: string)
    ensures InLibrary(a + b, file) <==> InLibrary(a, file) || InLibrary(b, file)
  {
    if InLibrary(a + b, file) {
      var k :| 0 <= k < |a + b| && (a + b)[k].file == file;
      if k >= |a| { assert b[k - |a|] == (a + b)[k]; }
    }
    if InLibrary(a, file) {
      var k :| 0 <= k < |a| && a[k].file == file;
      assert (a + b)[k] == a[k];
    }
    if InLibrary(b, file) {
      var k :| 0 <= k < |b| && b[k].file == file;
      assert (a + b)[|a| + k] == b[k];
    }
  }

  /** Whether the end of s folds to ext depends only on the last |ext| characters. */
  lemma {:induction false} EndsFoldedSuffix(s: string, t: string, ext: string)
    requires |ext| <= |t| <= |s| && t == s[|s| - |t|..]
    ensures EndsFolded(t, ext) <==> EndsFolded(s, ext)
    decreases |ext|
  {
    if ext != [] {
      var s', t' := s[..|s| - 1], t[..|t| - 1];
      assert t' == s'[|s'| - |t'|..];
      EndsFoldedSuffix(s', t', ext[..|ext| - 1]);
    }
  }

  /** A suffix t of s that is longer than ext ends in "." and ext exactly when s does. */
  lemma SuffixHasExtension(s: string, t: string, ext: string)
    requires |ext| < |t| <= |s| && t == s[|s| - |t|..]
    ensures HasExtension(t, ext) <==> HasExtension(s, ext)
  {
    EndsFoldedSuffix(s, t, ext);
    assert t[|t| - |ext| - 1] == s[|s| - |ext| - 1];
  }

  /** The base name of a media file is a media file with the same extension. */
  lemma BasenameOfMediaFile(s: string)
    requires IsMediaFile(s)
    ensures MediaSuffixLength(Basename(s)) == MediaSuffixLength(s)
  {
    var n, b := MediaSuffixLength(s), Basename(s);
    MediaSuffixChars(s);
    assert !IsSeparator(s[|s| - n]);
    assert |b| >= n;
    SuffixHasExtension(s, b, "mp4");
    SuffixHasExtension(s, b, "mp3");
    SuffixHasExtension(s, b, "ogg");
    SuffixHasExtension(s, b, "m4a");
    SuffixHasExtension(s, b, "wav");
    if |b| > 4 {
      SuffixHasExtension(s, b, "flac");
    }
  }

  /** A given label with an extension loses exactly that extension. */
  lemma ServerLabelStripsExtension(base: string, ext: string, file: string)
    requires base != [] && ext != [] && forall i :: 0 <= i < |ext| ==> ExtensionChar(ext[i])
    ensures ServerLabel(RawFile(base + "." + ext, file)) == base
  {
    StripExtensionRoundTrip(base, ext);
  }

  /** Without a label, the base name of the file path is used, without its extension. */
  lemma ServerLabelFromPath(dir: string, base: string, ext: string)
    requires NoSeparator(base + "." + ext)
    requires ext != [] && forall i :: 0 <= i < |ext| ==> ExtensionChar(ext[i])
    ensures ServerLabel(RawFile("", dir + "/" + base + "." + ext)) == base
  {
    var name := base + "." + ext;
    assert dir + "/" + base + "." + ext == dir + "/" + name;
    BasenameOfJoin(dir, name);
    StripExtensionRoundTrip(base, ext);
    assert StripExtension("") == "";
  }

  /** s is the item ingestion makes of some listing entry that has a media file. */
  predicate IngestedFrom(files: seq<RawFile>, s: Song)
  {
    exists f :: f in files && IsMediaFile(f.file) && s == Song(ServerLabel(f), f.file)
  }

  /** An item, label and file together, is in the ingested library exactly when some listing
   *  entry with a media file has that file and derives that label. */
  lemma {:induction false} IngestLibrarySongs(files: seq<RawFile>, s: Song)
    ensures s in IngestLibrary(files) <==> IngestedFrom(files, s)
  {
    if files != [] {
      var init, f := files[..|files| - 1], files[|files| - 1];
      assert files == init + [f];
      IngestLibrarySongs(init, s);
      var tail := if IsMediaFile(f.file) then [Song(ServerLabel(f), f.file)] else [];
      assert IngestLibrary(files) == IngestLibrary(init) + tail;
      assert IngestedFrom(files, s) <==> IngestedFrom(init, s) || (IsMediaFile(f.file) && s == Song(ServerLabel(f), f.file)) by {
        if IngestedFrom(files, s) {
          var g :| g in files && IsMediaFile(g.file) && s == Song(ServerLabel(g), g.file);
          assert g in init || g == f;
        }
        if IngestedFrom(init, s) {
          var g :| g in init && IsMediaFile(g.file) && s == Song(ServerLabel(g), g.file);
          assert g in files;
        }
      }
    }
  }
}
