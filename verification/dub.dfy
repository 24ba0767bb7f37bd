/** The catalog builder (dub.py) without its file-system effects: given what
    `os.walk` reports for the releases and pages directories, and which paths
    exist, it computes the release records, the tracklists and the pages map
    that make up the site configuration. */
module Dub {
  import opened Wrappers
  import opened Text
  import opened Paths
  import opened Naming

  /** A file reported by `os.walk`: its bare name and its path relative to
      the working directory (the value of `os.path.relpath`) */
  datatype FileEntry = FileEntry(name: string, relPath: string)

  /** One `(root, files)` step of walking the releases directory */
  datatype WalkedDir = WalkedDir(root: string, files: seq<FileEntry>)

  /** The releases directory that is walked, the directory tracklists are
      written to when a release has none of its own, and `os.path.relpath`
      as seen from the working directory */
  datatype Layout = Layout(releasesDir: string, outputDir: string, relpath: string -> string)

  /** One entry of a tracklist; `creator` is the optional dict key */
  datatype Track = Track(location: string, title: string, creator: Option<string>)

  /** A release record of the configuration */
  datatype Release = Release(title: string, playlist: string, artwork: Option<string>, notes: Option<string>)

  /** The `playlist` object written to a tracklist file */
  datatype Playlist = Playlist(title: string, creator: Option<string>, track: seq<Track>)

  /** What one directory contributes: its key in the releases map, its
      release record, and the tracklist file written for it */
  datatype Emitted = Emitted(key: string, release: Release, tracklistPath: string, playlist: Playlist)

  /** What the loop over a directory's files accumulates */
  datatype DirScan = DirScan(tracks: seq<Track>, notes: string, artwork: string)

  const DefaultArtwork := "assets/images/default-artwork.jpg"

  /** `os.path.exists` over a snapshot `fs` of the existing paths; the empty
      path never exists */
  predicate Exists(fs: set<string>, p: string) {
    p != "" && p in fs
  }

  // ---------------------------------------------------------------- artist

  /** The artist is the name of the parent directory, unless the parent is
      the releases directory itself */
  function Artist(releasesDir: string, root: string): (r: string)
    ensures '/' !in r
    ensures Dirname(root) == releasesDir ==> r == ""
    ensures Dirname(root) != releasesDir ==> r == Basename(Dirname(root))
  {
    if Dirname(root) != releasesDir then Basename(Dirname(root)) else ""
  }

  /** `releases/album` has no artist. */
  lemma TopLevelReleaseHasNoArtist(releasesDir: string, album: string)
    requires releasesDir != "" && releasesDir[|releasesDir| - 1] != '/'
    requires album != "" && '/' !in album
    ensures Artist(releasesDir, PathJoin(releasesDir, album)) == ""
    ensures Basename(PathJoin(releasesDir, album)) == album
  {
    ChildPath(releasesDir, album);
  }

  /** `releases/artist/album` is by `artist`. */
  lemma NestedReleaseArtist(releasesDir: string, artist: string, album: string)
    requires releasesDir != "" && releasesDir[|releasesDir| - 1] != '/'
    requires artist != "" && '/' !in artist
    requires album != "" && '/' !in album
    ensures Artist(releasesDir, PathJoin(PathJoin(releasesDir, artist), album)) == artist
    ensures Basename(PathJoin(PathJoin(releasesDir, artist), album)) == album
  {
    ChildPath(releasesDir, artist);
    var parent := PathJoin(releasesDir, artist);
    assert parent[|parent| - 1] == artist[|artist| - 1];
    ChildPath(parent, album);
    assert |parent| > |releasesDir|;
  }

  // ---------------------------------------------------------- one directory

  function MakeTrack(f: FileEntry, artist: string): Track {
    Track(f.relPath, TrackTitle(f.name), if |artist| > 0 then Some(artist) else None)
  }

  /** The body of the loop over a directory's files */
  function ScanStep(acc: DirScan, f: FileEntry, artist: string): DirScan {
    DirScan(
      acc.tracks + (if IsTrackFile(f.name) then [MakeTrack(f, artist)] else []),
      if IsNotesFile(f.name) then f.relPath else acc.notes,
      if IsArtworkFile(f.name) then f.relPath else acc.artwork)
  }

  /** The loop over a directory's files, in the order they are listed */
  function Scan(files: seq<FileEntry>, artist: string): DirScan
    decreases |files|
  {
    if |files| == 0 then DirScan([], "", DefaultArtwork)
    else ScanStep(Scan(files[..|files| - 1], artist), files[|files| - 1], artist)
  }

  /** The positions holding `true`, in increasing order */
  function Positions(flags: seq<bool>): (ps: seq<nat>)
    ensures forall k :: 0 <= k < |ps| ==> ps[k] < |flags| && flags[ps[k]]
    ensures forall k, l :: 0 <= k < l < |ps| ==> ps[k] < ps[l]
    ensures forall i :: 0 <= i < |flags| && flags[i] ==> i in ps
    decreases |flags|
  {
    if |flags| == 0 then []
    else
      var n := |flags| - 1;
      var pre := Positions(flags[..n]);
      assert forall k :: 0 <= k < |pre| ==> flags[pre[k]] == flags[..n][pre[k]];
      pre + (if flags[n] then [n] else [])
  }

  /** Which files of a list are track files */
  function TrackFlags(files: seq<FileEntry>): (flags: seq<bool>)
    ensures |flags| == |files|
    ensures forall i :: 0 <= i < |files| ==> flags[i] == IsTrackFile(files[i].name)
  {
    seq(|files|, i requires 0 <= i < |files| => IsTrackFile(files[i].name))
  }

  /** The positions of the track files in a file list, in list order */
  function TrackPositions(files: seq<FileEntry>): seq<nat> {
    Positions(TrackFlags(files))
  }

  /** Track t is the one made from file f: located at the file's relative
      path, titled by its cleaned lower-cased base name, and credited to the
      artist exactly when there is one */
  predicate IsTrackOf(t: Track, f: FileEntry, artist: string) {
    && t.location == f.relPath
    && t.title == TrackTitle(f.name)
    && t.creator == (if artist == "" then None else Some(artist))
  }

  /** One step of the loop adds a track exactly for a track file. */
  lemma ScanTracksStep(files: seq<FileEntry>, artist: string)
    requires |files| > 0
    ensures var n := |files| - 1;
      Scan(files, artist).tracks
        == Scan(files[..n], artist).tracks + (if TrackFlags(files)[n] then [MakeTrack(files[n], artist)] else [])
  {
  }

  /** The tracks are made, one each, from the files at the track positions,
      in file-list order. */
  lemma ScanTracksAtPositions(files: seq<FileEntry>, artist: string)
    ensures |Scan(files, artist).tracks| == |TrackPositions(files)|
    ensures forall k :: 0 <= k < |TrackPositions(files)| ==>
      TrackPositions(files)[k] < |files| && Scan(files, artist).tracks[k] == MakeTrack(files[TrackPositions(files)[k]], artist)
  {
    ScanTracksPicked(files, artist);
    PickedAtPositions(TrackFlags(files), files, TrackMaker(artist));
  }

  /** `MakeTrack` for a fixed artist */
  function TrackMaker(artist: string): FileEntry -> Track {
    f => MakeTrack(f, artist)
  }

  /** The images under f of the flagged elements of xs, in order */
  function Picked<A, B>(flags: seq<bool>, xs: seq<A>, f: A -> B): seq<B>
    requires |flags| == |xs|
    decreases |xs|
  {
    if |xs| == 0 then []
    else
      var n := |xs| - 1;
      Picked(flags[..n], xs[..n], f) + (if flags[n] then [f(xs[n])] else [])
  }

  /** The k-th picked element is the image of the element at the k-th
      flagged position. */
  lemma {:induction false} PickedAtPositions<A, B>(flags: seq<bool>, xs: seq<A>, f: A -> B)
    requires |flags| == |xs|
    ensures |Picked(flags, xs, f)| == |Positions(flags)|
    ensures forall k :: 0 <= k < |Positions(flags)| ==>
      Positions(flags)[k] < |xs| && Picked(flags, xs, f)[k] == f(xs[Positions(flags)[k]])
    decreases |xs|
  {
    if |xs| > 0 {
      var n := |xs| - 1;
      PickedAtPositions(flags[..n], xs[..n], f);
      var ps, pps := Positions(flags), Positions(flags[..n]);
      var ys, pys := Picked(flags, xs, f), Picked(flags[..n], xs[..n], f);
      assert ps == pps + (if flags[n] then [n] else []);
      forall k | 0 <= k < |ps|
        ensures ps[k] < |xs| && ys[k] == f(xs[ps[k]])
      {
        if k < |pps| {
          assert ps[k] == pps[k] && ys[k] == pys[k];
          assert xs[pps[k]] == xs[..n][pps[k]];
        }
      }
    }
  }

  /** The loop's tracks are the tracks made from the track files. */
  lemma {:induction false} ScanTracksPicked(files: seq<FileEntry>, artist: string)
    ensures Scan(files, artist).tracks == Picked(TrackFlags(files), files, TrackMaker(artist))
    decreases |files|
  {
    if |files| > 0 {
      var n := |files| - 1;
      ScanTracksPicked(files[..n], artist);
      ScanTracksStep(files, artist);
      assert TrackFlags(files)[..n] == TrackFlags(files[..n]);
      assert TrackMaker(artist)(files[n]) == MakeTrack(files[n], artist);
    }
  }

  /** The tracks are made from exactly the track files, in file-list order. */
  lemma ScanTracksInOrder(files: seq<FileEntry>, artist: string)
    ensures |Scan(files, artist).tracks| == |TrackPositions(files)|
    ensures forall k :: 0 <= k < |TrackPositions(files)| ==>
      TrackPositions(files)[k] < |files| && IsTrackOf(Scan(files, artist).tracks[k], files[TrackPositions(files)[k]], artist)
  {
    ScanTracksAtPositions(files, artist);
  }

  /** A directory has tracks exactly when it lists a track file. */
  lemma HasTracksIff(files: seq<FileEntry>, artist: string)
    ensures |Scan(files, artist).tracks| > 0 <==> exists i :: 0 <= i < |files| && IsTrackFile(files[i].name)
  {
    ScanTracksInOrder(files, artist);
    var ps := TrackPositions(files);
    if exists i :: 0 <= i < |files| && IsTrackFile(files[i].name) {
      var i :| 0 <= i < |files| && IsTrackFile(files[i].name);
      assert i in ps;
    }
    if |ps| > 0 {
      assert IsTrackFile(files[ps[0]].name);
    }
  }

  /** The relative path of the last flagged file, or `dflt` when none is
      flagged: the reference for a variable that each match overwrites */
  function LastFlagged(flags: seq<bool>, files: seq<FileEntry>, dflt: string): (r: string)
    requires |flags| == |files|
    ensures (forall i :: 0 <= i < |flags| ==> !flags[i]) ==> r == dflt
    ensures forall j :: 0 <= j < |flags| && flags[j] && (forall i :: j < i < |flags| ==> !flags[i]) ==> r == files[j].relPath
    ensures r == dflt || exists i :: 0 <= i < |flags| && flags[i] && files[i].relPath == r
    decreases |flags|
  {
    if |flags| == 0 then dflt
    else
      var n := |flags| - 1;
      if flags[n] then files[n].relPath
      else
        var r := LastFlagged(flags[..n], files[..n], dflt);
        assert forall i :: 0 <= i < n ==> flags[..n][i] == flags[i] && files[..n][i] == files[i];
        r
  }

  /** Which files are named exactly `notes.md` */
  function NotesFlags(files: seq<FileEntry>): (flags: seq<bool>)
    ensures |flags| == |files|
    ensures forall i :: 0 <= i < |files| ==> flags[i] == IsNotesFile(files[i].name)
  {
    seq(|files|, i requires 0 <= i < |files| => IsNotesFile(files[i].name))
  }

  /** Which files carry one of the four artwork names */
  function ArtworkFlags(files: seq<FileEntry>): (flags: seq<bool>)
    ensures |flags| == |files|
    ensures forall i :: 0 <= i < |files| ==> flags[i] == IsArtworkFile(files[i].name)
  {
    seq(|files|, i requires 0 <= i < |files| => IsArtworkFile(files[i].name))
  }

  /** The notes path is that of the last file named exactly `notes.md`, or
      `''`; the artwork path that of the last file with an artwork name, or
      the default artwork. */
  lemma {:induction false} ScanLastWins(files: seq<FileEntry>, artist: string)
    ensures Scan(files, artist).notes == LastFlagged(NotesFlags(files), files, "")
    ensures Scan(files, artist).artwork == LastFlagged(ArtworkFlags(files), files, DefaultArtwork)
    decreases |files|
  {
    if |files| > 0 {
      var n := |files| - 1;
      var pre := files[..n];
      ScanLastWins(pre, artist);
      ScanPathsStep(files, artist);
      assert NotesFlags(files)[..n] == NotesFlags(pre);
      assert ArtworkFlags(files)[..n] == ArtworkFlags(pre);
      LastFlaggedStep(NotesFlags(files), files, "");
      LastFlaggedStep(ArtworkFlags(files), files, DefaultArtwork);
    }
  }

  /** One more file overwrites the reference value exactly when it is
      flagged. */
  lemma LastFlaggedStep(flags: seq<bool>, files: seq<FileEntry>, dflt: string)
    requires |flags| == |files| > 0
    ensures var n := |flags| - 1;
      LastFlagged(flags, files, dflt) == if flags[n] then files[n].relPath else LastFlagged(flags[..n], files[..n], dflt)
  {
  }

  /** One step of the loop overwrites the notes or artwork path exactly for
      a notes or artwork file. */
  lemma ScanPathsStep(files: seq<FileEntry>, artist: string)
    requires |files| > 0
    ensures var n := |files| - 1;
      && Scan(files, artist).notes == (if NotesFlags(files)[n] then files[n].relPath else Scan(files[..n], artist).notes)
      && Scan(files, artist).artwork == (if ArtworkFlags(files)[n] then files[n].relPath else Scan(files[..n], artist).artwork)
  {
  }

  /** The release's key: the slugs of artist and directory name joined by
      '/', or the directory's slug alone */
  function ReleaseKey(artist: string, dirName: string): (k: string)
    ensures ' ' !in k
    ensures artist != "" ==> k == Slug(artist + "/" + dirName)
    ensures artist == "" ==> k == Slug(dirName)
  {
    SlugOfJoined(artist, dirName);
    if |artist| > 0 then Slug(artist) + "/" + Slug(dirName) else Slug(dirName)
  }

  /** The tracklist a release may bring along, looked up under the
      working directory's entry named like the release */
  function OwnTracklist(dirName: string): string {
    PathJoin(dirName, "tracklist.jspf")
  }

  /** The tracklist written to the output directory for a release without
      one of its own */
  function OutputTracklist(layout: Layout, dirName: string): string {
    PathJoin(layout.outputDir, dirName + "-tracklist.jspf")
  }

  /** An existing own tracklist wins; otherwise the tracklist goes to the
      output directory. */
  function TracklistPath(layout: Layout, fs: set<string>, dirName: string): (p: string)
    ensures Exists(fs, OwnTracklist(dirName)) ==> p == OwnTracklist(dirName)
    ensures !Exists(fs, OwnTracklist(dirName)) ==> p == OutputTracklist(layout, dirName)
  {
    if Exists(fs, OwnTracklist(dirName)) then OwnTracklist(dirName) else OutputTracklist(layout, dirName)
  }

  /** No '/' in the fixed tracklist names */
  lemma TracklistNamesHaveNoSlash(dirName: string)
    requires '/' !in dirName
    ensures '/' !in "tracklist.jspf" && '/' !in dirName + "-tracklist.jspf"
  {
    var own, out := "tracklist.jspf", dirName + "-tracklist.jspf";
    forall j | 0 <= j < |own| ensures own[j] != '/' { }
    forall j | 0 <= j < |out| ensures out[j] != '/' {
      if j >= |dirName| { assert out[j] == "-tracklist.jspf"[j - |dirName|]; }
    }
  }

  /** A release's own tracklist is `<dir>/tracklist.jspf`, relative to the
      working directory. */
  lemma OwnTracklistLocation(dirName: string)
    requires dirName != "" && '/' !in dirName
    ensures OwnTracklist(dirName) == dirName + "/tracklist.jspf"
    ensures Dirname(OwnTracklist(dirName)) == dirName && Basename(OwnTracklist(dirName)) == "tracklist.jspf"
  {
    TracklistNamesHaveNoSlash(dirName);
    ChildPath(dirName, "tracklist.jspf");
  }

  /** The generated tracklist is `<dir>-tracklist.jspf` in the output
      directory. */
  lemma OutputTracklistLocation(layout: Layout, dirName: string)
    requires '/' !in dirName
    requires layout.outputDir != "" && layout.outputDir[|layout.outputDir| - 1] != '/'
    ensures Dirname(OutputTracklist(layout, dirName)) == layout.outputDir
    ensures Basename(OutputTracklist(layout, dirName)) == dirName + "-tracklist.jspf"
  {
    TracklistNamesHaveNoSlash(dirName);
    ChildPath(layout.outputDir, dirName + "-tracklist.jspf");
  }

  /** Where the tracklist lands: `<dir>/tracklist.jspf` relative to the
      working directory when that exists, else `<dir>-tracklist.jspf` in the
      output directory. */
  lemma TracklistLocation(layout: Layout, fs: set<string>, dirName: string)
    requires dirName != "" && '/' !in dirName
    requires layout.outputDir != "" && layout.outputDir[|layout.outputDir| - 1] != '/'
    ensures var p := TracklistPath(layout, fs, dirName);
      if Exists(fs, dirName + "/tracklist.jspf")
      then p == dirName + "/tracklist.jspf" && Dirname(p) == dirName && Basename(p) == "tracklist.jspf"
      else Dirname(p) == layout.outputDir && Basename(p) == dirName + "-tracklist.jspf"
  {
    OwnTracklistLocation(dirName);
    OutputTracklistLocation(layout, dirName);
  }

  /** One step of the walk over the releases directory: a release is emitted
      for a directory below the releases directory that lists a track file. */
  function ProcessDir(layout: Layout, fs: set<string>, d: WalkedDir): (r: Option<Emitted>)
    ensures r.Some? <==> (d.root != layout.releasesDir && exists i :: 0 <= i < |d.files| && IsTrackFile(d.files[i].name))
  {
    var dirName := Basename(d.root);
    var artist := Artist(layout.releasesDir, d.root);
    var scan := Scan(d.files, artist);
    HasTracksIff(d.files, artist);
    if |scan.tracks| > 0 && d.root != layout.releasesDir then
      var path := TracklistPath(layout, fs, dirName);
      var release := Release(
        dirName,
        layout.relpath(path),
        if Exists(fs, scan.artwork) then Some(scan.artwork) else None,
        if Exists(fs, scan.notes) then Some(scan.notes) else None);
      var playlist := Playlist(dirName, if |artist| > 0 then Some(artist) else None, scan.tracks);
      Some(Emitted(ReleaseKey(artist, dirName), release, path, playlist))
    else
      None
  }

  /** An emitted release and its playlist are titled by the directory name,
      with or without an artist; the playlist names the artist as creator
      exactly when there is one, and the release points at the tracklist
      file by its path relative to the working directory. */
  lemma EmittedRecords(layout: Layout, fs: set<string>, d: WalkedDir)
    requires ProcessDir(layout, fs, d).Some?
    ensures var e, artist := ProcessDir(layout, fs, d).value, Artist(layout.releasesDir, d.root);
      && e.release.title == Basename(d.root)
      && e.playlist.title == Basename(d.root)
      && e.key == ReleaseKey(artist, Basename(d.root))
      && e.tracklistPath == TracklistPath(layout, fs, Basename(d.root))
      && e.release.playlist == layout.relpath(e.tracklistPath)
      && e.playlist.creator == (if artist == "" then None else Some(artist))
  {
  }

  /** An emitted playlist lists one track per track file, in file order. */
  lemma EmittedTracks(layout: Layout, fs: set<string>, d: WalkedDir)
    requires ProcessDir(layout, fs, d).Some?
    ensures var tracks, ps := ProcessDir(layout, fs, d).value.playlist.track, TrackPositions(d.files);
      && |tracks| == |ps|
      && forall k :: 0 <= k < |ps| ==> ps[k] < |d.files| && IsTrackOf(tracks[k], d.files[ps[k]], Artist(layout.releasesDir, d.root))
  {
    ScanTracksInOrder(d.files, Artist(layout.releasesDir, d.root));
  }

  /** The files of `d` carry the paths `os.path.relpath` gives to
      `os.path.join(root, name)`, as the walk computes them */
  predicate WalkedWith(layout: Layout, d: WalkedDir) {
    forall f :: f in d.files ==> f.relPath == layout.relpath(PathJoin(d.root, f.name))
  }

  /** When the files' paths are computed from the directory, each track of
      an emitted playlist is located at the relative path of its track file
      joined to the directory's root. */
  lemma EmittedTrackLocations(layout: Layout, fs: set<string>, d: WalkedDir)
    requires WalkedWith(layout, d)
    requires ProcessDir(layout, fs, d).Some?
    ensures var tracks, ps := ProcessDir(layout, fs, d).value.playlist.track, TrackPositions(d.files);
      && |tracks| == |ps|
      && forall k :: 0 <= k < |ps| ==>
           && ps[k] < |d.files|
           && tracks[k].location == layout.relpath(PathJoin(d.root, d.files[ps[k]].name))
  {
    EmittedTracks(layout, fs, d);
    var tracks, ps := ProcessDir(layout, fs, d).value.playlist.track, TrackPositions(d.files);
    forall k | 0 <= k < |ps|
      ensures ps[k] < |d.files|
      ensures tracks[k].location == layout.relpath(PathJoin(d.root, d.files[ps[k]].name))
    {
      assert d.files[ps[k]] in d.files;
    }
  }

  /** The notes and artwork of an emitted release are the paths the file
      loop ends with, each kept when it exists. */
  lemma EmittedPaths(layout: Layout, fs: set<string>, d: WalkedDir)
    requires ProcessDir(layout, fs, d).Some?
    ensures var r, sc := ProcessDir(layout, fs, d).value.release, Scan(d.files, Artist(layout.releasesDir, d.root));
      && r.notes == (if Exists(fs, sc.notes) then Some(sc.notes) else None)
      && r.artwork == (if Exists(fs, sc.artwork) then Some(sc.artwork) else None)
  {
  }

  /** An emitted release has notes exactly when the last file named
      `notes.md` exists, and then they are that file; so notes come only
      from a listed `notes.md` whose path exists. */
  lemma EmittedNotes(layout: Layout, fs: set<string>, d: WalkedDir)
    requires ProcessDir(layout, fs, d).Some?
    ensures var n := LastFlagged(NotesFlags(d.files), d.files, "");
      ProcessDir(layout, fs, d).value.release.notes == if Exists(fs, n) then Some(n) else None
    ensures var notes := ProcessDir(layout, fs, d).value.release.notes;
      notes.Some? ==>
        Exists(fs, notes.value)
        && exists i :: 0 <= i < |d.files| && IsNotesFile(d.files[i].name) && d.files[i].relPath == notes.value
  {
    EmittedPaths(layout, fs, d);
    ScanLastWins(d.files, Artist(layout.releasesDir, d.root));
    var n := LastFlagged(NotesFlags(d.files), d.files, "");
    if Exists(fs, n) {
      var i :| 0 <= i < |d.files| && NotesFlags(d.files)[i] && d.files[i].relPath == n;
      assert IsNotesFile(d.files[i].name);
    }
  }

  /** An emitted release's artwork is the last listed file with one of the
      artwork names, or the default artwork, kept exactly when its path
      exists. */
  lemma EmittedArtwork(layout: Layout, fs: set<string>, d: WalkedDir)
    requires ProcessDir(layout, fs, d).Some?
    ensures var a := LastFlagged(ArtworkFlags(d.files), d.files, DefaultArtwork);
      ProcessDir(layout, fs, d).value.release.artwork == if Exists(fs, a) then Some(a) else None
    ensures var artwork := ProcessDir(layout, fs, d).value.release.artwork;
      artwork.Some? ==>
        Exists(fs, artwork.value)
        && (artwork.value == DefaultArtwork
            || exists i :: 0 <= i < |d.files| && IsArtworkFile(d.files[i].name) && d.files[i].relPath == artwork.value)
  {
    EmittedPaths(layout, fs, d);
    ScanLastWins(d.files, Artist(layout.releasesDir, d.root));
    var a := LastFlagged(ArtworkFlags(d.files), d.files, DefaultArtwork);
    if Exists(fs, a) && a != DefaultArtwork {
      var i :| 0 <= i < |d.files| && ArtworkFlags(d.files)[i] && d.files[i].relPath == a;
      assert IsArtworkFile(d.files[i].name);
    }
  }

  // ------------------------------------------------- keyed collections

  /** Entries stored one after the other into a dict: a later entry with an
      equal key overwrites an earlier one; `None` stores nothing */
  function Collect<V>(es: seq<Option<(string, V)>>): map<string, V>
    decreases |es|
  {
    if |es| == 0 then map[]
    else
      var m := Collect(es[..|es| - 1]);
      match es[|es| - 1]
      case Some(kv) => m[kv.0 := kv.1]
      case None => m
  }

  /** The keys of all stored entries */
  function KeysOf<V>(es: seq<Option<(string, V)>>): set<string> {
    set j | 0 <= j < |es| && es[j].Some? :: es[j].value.0
  }

  /** Entry j is the last one stored under key k */
  predicate LastWithKey<V>(es: seq<Option<(string, V)>>, j: int, k: string) {
    && 0 <= j < |es| && es[j].Some? && es[j].value.0 == k
    && forall i :: j < i < |es| && es[i].Some? ==> es[i].value.0 != k
  }

  /** The dict holds exactly the stored keys, each with the last value
      stored under it. */
  lemma {:induction false} CollectLastWins<V>(es: seq<Option<(string, V)>>)
    ensures Collect(es).Keys == KeysOf(es)
    ensures forall j, k :: LastWithKey(es, j, k) ==> k in Collect(es) && Collect(es)[k] == es[j].value.1
    decreases |es|
  {
    if |es| > 0 {
      var n := |es| - 1;
      var pre := es[..n];
      CollectLastWins(pre);
      assert forall i :: 0 <= i < n ==> pre[i] == es[i];
      assert KeysOf(es) == KeysOf(pre) + (if es[n].Some? then {es[n].value.0} else {}) by {
        forall k | k in KeysOf(es) ensures k in KeysOf(pre) + (if es[n].Some? then {es[n].value.0} else {}) {
          var j :| 0 <= j < |es| && es[j].Some? && es[j].value.0 == k;
          if j < n { assert pre[j] == es[j]; }
        }
      }
      forall j, k | LastWithKey(es, j, k) && j < n
        ensures LastWithKey(pre, j, k)
      {
      }
    }
  }

  // ------------------------------------------------------------ the walk

  /** The releases-map entry a directory contributes */
  function ReleaseEntry(e: Option<Emitted>): Option<(string, Release)> {
    match e
    case Some(x) => Some((x.key, x.release))
    case None => None
  }

  /** The tracklist file a directory writes */
  function TracklistEntry(e: Option<Emitted>): Option<(string, Playlist)> {
    match e
    case Some(x) => Some((x.tracklistPath, x.playlist))
    case None => None
  }

  /** Directory d emits a release under key k */
  predicate EmitsKey(layout: Layout, fs: set<string>, d: WalkedDir, k: string) {
    var e := ProcessDir(layout, fs, d);
    e.Some? && e.value.key == k
  }

  /** The releases map, directory by directory in walk order */
  function Releases(layout: Layout, fs: set<string>, dirs: seq<WalkedDir>): map<string, Release> {
    Collect(ReleaseEntries(layout, fs, dirs))
  }

  /** The tracklist files written, by path; a later write replaces an earlier one */
  function Tracklists(layout: Layout, fs: set<string>, dirs: seq<WalkedDir>): map<string, Playlist> {
    Collect(seq(|dirs|, i requires 0 <= i < |dirs| => TracklistEntry(ProcessDir(layout, fs, dirs[i]))))
  }

  /** Directory j is the last one that emits key k */
  predicate LastToEmit(layout: Layout, fs: set<string>, dirs: seq<WalkedDir>, j: int, k: string) {
    0 <= j < |dirs| && EmitsKey(layout, fs, dirs[j], k) && forall i :: j < i < |dirs| ==> !EmitsKey(layout, fs, dirs[i], k)
  }

  /** The releases-map entries of a walk, one per directory */
  function ReleaseEntries(layout: Layout, fs: set<string>, dirs: seq<WalkedDir>): (es: seq<Option<(string, Release)>>)
    ensures |es| == |dirs|
    ensures forall j :: 0 <= j < |dirs| ==> es[j] == ReleaseEntry(ProcessDir(layout, fs, dirs[j]))
  {
    seq(|dirs|, i requires 0 <= i < |dirs| => ReleaseEntry(ProcessDir(layout, fs, dirs[i])))
  }

  /** Directory d emits key k exactly when its releases-map entry is stored
      under k. */
  lemma EmitsKeyEntry(layout: Layout, fs: set<string>, d: WalkedDir, k: string)
    ensures var e := ReleaseEntry(ProcessDir(layout, fs, d));
      EmitsKey(layout, fs, d, k) <==> e.Some? && e.value.0 == k
  {
    match ProcessDir(layout, fs, d)
    case Some(x) => assert ReleaseEntry(Some(x)) == Some((x.key, x.release));
    case None =>
  }

  /** A key of the dict was stored by some entry. */
  lemma KeyHasEntry<V>(es: seq<Option<(string, V)>>, k: string)
    requires k in Collect(es)
    ensures exists j :: 0 <= j < |es| && es[j].Some? && es[j].value.0 == k
  {
    CollectLastWins(es);
  }

  /** A present key was emitted by some directory. */
  lemma KeyHasEmitter(layout: Layout, fs: set<string>, dirs: seq<WalkedDir>, k: string)
    requires k in Releases(layout, fs, dirs)
    ensures exists j :: 0 <= j < |dirs| && EmitsKey(layout, fs, dirs[j], k)
  {
    var es := ReleaseEntries(layout, fs, dirs);
    KeyHasEntry(es, k);
    var j :| 0 <= j < |es| && es[j].Some? && es[j].value.0 == k;
    EmitsKeyEntry(layout, fs, dirs[j], k);
  }

  /** An emitted key is present. */
  lemma EmittedKeyPresent(layout: Layout, fs: set<string>, dirs: seq<WalkedDir>, j: int, k: string)
    requires 0 <= j < |dirs| && EmitsKey(layout, fs, dirs[j], k)
    ensures k in Releases(layout, fs, dirs)
  {
    var es := ReleaseEntries(layout, fs, dirs);
    EmitsKeyEntry(layout, fs, dirs[j], k);
    CollectLastWins(es);
    assert k in KeysOf(es);
  }

  /** A key is present exactly when some directory emits it. */
  lemma ReleaseKeys(layout: Layout, fs: set<string>, dirs: seq<WalkedDir>)
    ensures forall k :: k in Releases(layout, fs, dirs) <==> exists j :: 0 <= j < |dirs| && EmitsKey(layout, fs, dirs[j], k)
  {
    forall k ensures k in Releases(layout, fs, dirs) <==> exists j :: 0 <= j < |dirs| && EmitsKey(layout, fs, dirs[j], k) {
      if k in Releases(layout, fs, dirs) {
        KeyHasEmitter(layout, fs, dirs, k);
      }
      if exists j :: 0 <= j < |dirs| && EmitsKey(layout, fs, dirs[j], k) {
        var j :| 0 <= j < |dirs| && EmitsKey(layout, fs, dirs[j], k);
        EmittedKeyPresent(layout, fs, dirs, j, k);
      }
    }
  }

  /** Each key holds the release of the last directory that emits it: an
      equal key later in the walk overwrites an earlier release. */
  lemma ReleasesLastWins(layout: Layout, fs: set<string>, dirs: seq<WalkedDir>)
    ensures forall j, k :: LastToEmit(layout, fs, dirs, j, k) ==>
      k in Releases(layout, fs, dirs) && Releases(layout, fs, dirs)[k] == ProcessDir(layout, fs, dirs[j]).value.release
  {
    var es := ReleaseEntries(layout, fs, dirs);
    CollectLastWins(es);
    forall j, k | LastToEmit(layout, fs, dirs, j, k) ensures LastWithKey(es, j, k) {
      EmitsKeyEntry(layout, fs, dirs[j], k);
      forall i | j < i < |es| && es[i].Some? ensures es[i].value.0 != k {
        EmitsKeyEntry(layout, fs, dirs[i], k);
      }
    }
  }

  // ------------------------------------------------------------ the pages

  /** A page record; the forced `releases` entry is an empty object */
  datatype Page = MarkdownPage(location: string, title: string) | ReleasesIndex

  /** A `.md` file becomes a page under its cleaned, case-kept title */
  function PageEntry(f: FileEntry): Option<(string, Page)> {
    if IsPageFile(f.name) then Some((PageTitle(f.name), MarkdownPage(f.relPath, PageTitle(f.name)))) else None
  }

  /** The pages map: the markdown pages in walk order, then `releases`
      forced to the empty entry */
  function Pages(files: seq<FileEntry>): map<string, Page> {
    Collect(PageEntries(files))["releases" := ReleasesIndex]
  }

  /** The pages-map entries of the walk, one per file */
  function PageEntries(files: seq<FileEntry>): (es: seq<Option<(string, Page)>>)
    ensures |es| == |files|
    ensures forall i :: 0 <= i < |files| ==> es[i] == PageEntry(files[i])
  {
    seq(|files|, i requires 0 <= i < |files| => PageEntry(files[i]))
  }

  /** The titles of all markdown files */
  function MarkdownTitles(files: seq<FileEntry>): set<string> {
    set i | 0 <= i < |files| && IsPageFile(files[i].name) :: PageTitle(files[i].name)
  }

  /** File j is the last markdown file with its title */
  predicate IsLastWithTitle(files: seq<FileEntry>, j: int) {
    && 0 <= j < |files|
    && IsPageFile(files[j].name)
    && forall i :: j < i < |files| && IsPageFile(files[i].name) ==> PageTitle(files[i].name) != PageTitle(files[j].name)
  }

  /** The stored page titles are the titles of the markdown files. */
  lemma PageKeys(files: seq<FileEntry>)
    ensures KeysOf(PageEntries(files)) == MarkdownTitles(files)
  {
    var es := PageEntries(files);
    forall t | t in MarkdownTitles(files) ensures t in KeysOf(es) {
      var i :| 0 <= i < |files| && IsPageFile(files[i].name) && PageTitle(files[i].name) == t;
      assert es[i].Some? && es[i].value.0 == t;
    }
    forall t | t in KeysOf(es) ensures t in MarkdownTitles(files) {
      var i :| 0 <= i < |es| && es[i].Some? && es[i].value.0 == t;
      assert IsPageFile(files[i].name) && PageTitle(files[i].name) == t;
    }
  }

  /** The last markdown file with a title is the last entry stored under it. */
  lemma PageLastWithTitle(files: seq<FileEntry>, j: int)
    requires IsLastWithTitle(files, j)
    ensures LastWithKey(PageEntries(files), j, PageTitle(files[j].name))
  {
    var es := PageEntries(files);
    forall i | j < i < |es| && es[i].Some? ensures es[i].value.0 != PageTitle(files[j].name) {
      assert IsPageFile(files[i].name);
    }
  }

  /** The pages map holds `releases` as the empty entry, whatever markdown
      file had that title, and otherwise exactly the markdown titles, each
      with the last file of that title. */
  lemma PagesCollected(files: seq<FileEntry>)
    ensures Pages(files).Keys == MarkdownTitles(files) + {"releases"}
    ensures Pages(files)["releases"] == ReleasesIndex
    ensures forall j :: IsLastWithTitle(files, j) && PageTitle(files[j].name) != "releases" ==>
      Pages(files)[PageTitle(files[j].name)] == MarkdownPage(files[j].relPath, PageTitle(files[j].name))
  {
    var es := PageEntries(files);
    CollectLastWins(es);
    PageKeys(files);
    forall j | IsLastWithTitle(files, j) ensures LastWithKey(es, j, PageTitle(files[j].name)) {
      PageLastWithTitle(files, j);
    }
  }

  /** The reported page count, which leaves out the forced `releases` entry */
  function PageCount(pages: map<string, Page>): int {
    |pages| - 1
  }

  /** The reported count is the number of distinct markdown titles other
      than `releases`. */
  lemma PageCountIsMarkdownTitles(files: seq<FileEntry>)
    ensures PageCount(Pages(files)) == |MarkdownTitles(files) - {"releases"}|
  {
    PagesCollected(files);
    var t := MarkdownTitles(files);
    assert t + {"releases"} == (t - {"releases"}) + {"releases"};
    assert |(t - {"releases"}) + {"releases"}| == |t - {"releases"}| + 1;
  }

  // ---------------------------------------------------------- the catalog

  /** The configuration written to `cassette.json`; `lastBuild` is the
      build time, passed in because the clock is outside the model */
  datatype Catalog = Catalog(lastBuild: string, pages: map<string, Page>, releases: map<string, Release>)

  /** The whole build: the catalog, and the tracklist files written by path */
  function BuildCatalog(layout: Layout, fs: set<string>, releaseDirs: seq<WalkedDir>,
                        pageFiles: seq<FileEntry>, lastBuild: string): (r: (Catalog, map<string, Playlist>))
    ensures r.0.lastBuild == lastBuild
    ensures "releases" in r.0.pages && r.0.pages["releases"] == ReleasesIndex
    ensures PageCount(r.0.pages) == |MarkdownTitles(pageFiles) - {"releases"}|
    ensures forall k :: k in r.0.releases <==> exists j :: 0 <= j < |releaseDirs| && EmitsKey(layout, fs, releaseDirs[j], k)
  {
    PagesCollected(pageFiles);
    PageCountIsMarkdownTitles(pageFiles);
    ReleaseKeys(layout, fs, releaseDirs);
    (Catalog(lastBuild, Pages(pageFiles), Releases(layout, fs, releaseDirs)), Tracklists(layout, fs, releaseDirs))
  }
}
