/** Naming rules of the catalog builder (dub.py): title cleanup, slugs and
    the classification of the files found in a release directory. */
module Naming {
  import opened Wrappers
  import opened Text
  import opened Paths

  /** The pattern `^\d{1,2} ` matches the first k + 1 characters of s:
      k ASCII digits (one or two) followed by one space. */
  predicate NumericPrefix(s: string, k: nat) {
    && (k == 1 || k == 2)
    && k < |s|
    && (forall j :: 0 <= j < k ==> IsDigit(s[j]))
    && s[k] == ' '
  }

  /** Greedy `\d{1,max}` at the start of s: the number of leading digits, capped */
  function LeadingDigits(s: string, max: nat): (n: nat)
    ensures n <= max && n <= |s|
    ensures forall j :: 0 <= j < n ==> IsDigit(s[j])
    ensures n < max && n < |s| ==> !IsDigit(s[n])
  {
    if max == 0 || |s| == 0 || !IsDigit(s[0]) then 0 else 1 + LeadingDigits(s[1..], max - 1)
  }

  /** Backtracking over the digit run: the longest run of at most n digits
      followed by a space; the result is the length of the whole match */
  function MatchSpaceAfter(s: string, n: nat): (m: Option<nat>)
    requires n <= |s|
    ensures m.Some? ==> 2 <= m.value <= n + 1 && m.value <= |s| && s[m.value - 1] == ' '
    ensures m.None? ==> forall k :: 1 <= k <= n && k < |s| ==> s[k] != ' '
  {
    if n == 0 then None
    else if n < |s| && s[n] == ' ' then Some(n + 1)
    else MatchSpaceAfter(s, n - 1)
  }

  /** `re.sub('^\d{1,2} ', '', s)`: the anchored pattern can match at most once,
      at the start, and the match is removed. */
  function CleanTitle(s: string): (r: string)
    ensures forall k :: NumericPrefix(s, k) ==> r == s[k + 1..]
    ensures (forall k :: !NumericPrefix(s, k)) ==> r == s
    ensures |s| - 3 <= |r| <= |s| && r == s[|s| - |r|..]
  {
    var n := LeadingDigits(s, 2);
    match MatchSpaceAfter(s, n)
    case Some(m) =>
      assert NumericPrefix(s, m - 1);
      assert NumericPrefix(s, 1) ==> !IsDigit(s[1]);
      s[m..]
    case None =>
      assert forall k: nat :: NumericPrefix(s, k) ==> k <= n;
      s
  }

  /** One or two digits and a space are removed, once. */
  lemma CleanTitleExamples()
    ensures CleanTitle("01 deadweight") == "deadweight"
    ensures CleanTitle("7 intro") == "intro"
    ensures CleanTitle("01 02 outro") == "02 outro"
  {
    assert NumericPrefix("01 deadweight", 2);
    assert NumericPrefix("7 intro", 1);
    assert NumericPrefix("01 02 outro", 2);
  }

  /** Three digits, or digits without the space, are kept. */
  lemma CleanTitleKeeps()
    ensures CleanTitle("123 x") == "123 x"
    ensures CleanTitle("01intro") == "01intro"
  {
    assert !NumericPrefix("123 x", 1) && !NumericPrefix("123 x", 2);
    assert !NumericPrefix("01intro", 1) && !NumericPrefix("01intro", 2);
  }

  /** `s.replace(" ", "-").lower()`: the path segment a release is served under */
  function Slug(s: string): (r: string)
    ensures |r| == |s|
    ensures ' ' !in r
    ensures forall i :: 0 <= i < |r| ==> !IsUpper(r[i])
    ensures forall i :: 0 <= i < |s| && s[i] == ' ' ==> r[i] == '-'
    ensures forall i :: 0 <= i < |s| && IsUpper(s[i]) ==> r[i] as int == s[i] as int + 32
    ensures forall i :: 0 <= i < |s| && s[i] != ' ' && !IsUpper(s[i]) ==> r[i] == s[i]
  {
    Lower(ReplaceChar(s, ' ', '-'))
  }

  /** Slugging a slug changes nothing. */
  lemma SlugIdempotent(s: string)
    ensures Slug(Slug(s)) == Slug(s)
  {
    var t := Slug(s);
    assert ReplaceChar(t, ' ', '-') == t;
    assert Lower(t) == t;
  }

  /** Slugs are built character by character, so "artist/album" slugs to the
      two slugs joined by '/'. */
  lemma SlugOfJoined(artist: string, dir: string)
    ensures Slug(artist + "/" + dir) == Slug(artist) + "/" + Slug(dir)
  {
    var s := artist + "/" + dir;
    var l, r := Slug(artist) + "/" + Slug(dir), Slug(s);
    forall i | 0 <= i < |s| ensures r[i] == l[i] {
      if i < |artist| {
        assert s[i] == artist[i];
      } else if i > |artist| {
        assert s[i] == dir[i - |artist| - 1];
      }
    }
  }

  /** An extension, dot included, that marks an audio track: `.mp3` or
      `.wav` in any case */
  predicate IsTrackExt(ext: string) {
    Lower(ext) == ".mp3" || Lower(ext) == ".wav"
  }

  /** The extension of the name marks an audio track */
  predicate IsTrackFile(name: string) {
    IsTrackExt(Ext(name))
  }

  /** Notes are recognised by their exact name only */
  predicate IsNotesFile(name: string) {
    name == "notes.md"
  }

  /** One of the four exact artwork names */
  predicate IsArtworkFile(name: string) {
    name == "artwork.jpg" || name == "folder.jpg" || name == "artwork.png" || name == "folder.png"
  }

  /** The lower-cased extension is `.md` */
  predicate IsPageFile(name: string) {
    Lower(Ext(name)) == ".md"
  }

  /** A track's title: the base name lower-cased, then cleaned */
  function TrackTitle(name: string): string {
    CleanTitle(Lower(Stem(name)))
  }

  /** A page's title: the base name cleaned, case kept */
  function PageTitle(name: string): string {
    CleanTitle(Stem(name))
  }

  /** A file named `stem.ext` is a track exactly when ext, lower-cased, is mp3
      or wav, and its title is the cleaned lower-cased stem. */
  lemma TrackFileByExtension(stem: string, e: string)
    requires '/' !in stem && '/' !in e && '.' !in e
    requires exists k :: 0 <= k < |stem| && stem[k] != '.'
    ensures IsTrackFile(stem + "." + e) <==> Lower(e) == "mp3" || Lower(e) == "wav"
    ensures TrackTitle(stem + "." + e) == CleanTitle(Lower(stem))
  {
    SplitExtAtLastDot(stem, e);
    TrackExtension(e);
  }

  /** `.e` is a track extension exactly when e, lower-cased, is mp3 or wav. */
  lemma TrackExtension(e: string)
    ensures IsTrackExt("." + e) <==> Lower(e) == "mp3" || Lower(e) == "wav"
  {
    LowerConcat(".", e);
    assert Lower(".") == ".";
    ExtensionIs(Lower(e), "mp3");
    ExtensionIs(Lower(e), "wav");
  }

  /** Comparing dotted extensions is comparing the text after the dot. */
  lemma ExtensionIs(x: string, y: string)
    ensures "." + x == "." + y <==> x == y
  {
    if "." + x == "." + y {
      PrefixCancel(".", x, y);
    }
  }

  /** Lower-casing keeps digits and spaces and makes no new digits, so it
      keeps the numeric prefix. */
  lemma NumericPrefixLower(s: string, k: nat)
    ensures NumericPrefix(Lower(s), k) <==> NumericPrefix(s, k)
  {
    var l := Lower(s);
    assert forall j :: 0 <= j < |s| ==> (IsDigit(l[j]) <==> IsDigit(s[j]));
    assert forall j :: 0 <= j < |s| ==> (l[j] == ' ' <==> s[j] == ' ');
  }

  /** A track's title loses exactly the numeric prefix its stem has, and is
      otherwise the lower-cased stem. */
  lemma TrackTitlePrefix(stem: string, e: string)
    requires '/' !in stem && '/' !in e && '.' !in e
    requires exists k :: 0 <= k < |stem| && stem[k] != '.'
    ensures forall k :: NumericPrefix(stem, k) ==> TrackTitle(stem + "." + e) == Lower(stem)[k + 1..]
    ensures (forall k :: !NumericPrefix(stem, k)) ==> TrackTitle(stem + "." + e) == Lower(stem)
  {
    TrackFileByExtension(stem, e);
    forall k: nat
      ensures NumericPrefix(Lower(stem), k) <==> NumericPrefix(stem, k)
    {
      NumericPrefixLower(stem, k);
    }
  }

  /** A hidden file such as `.mp3` or `..wav` has no extension, so it is
      never a track. */
  lemma HiddenFileIsNotTrack(dots: string, e: string)
    requires dots != "" && forall i :: 0 <= i < |dots| ==> dots[i] == '.'
    requires '/' !in e && '.' !in e
    ensures !IsTrackFile(dots + e)
  {
    DotFileHasNoExt(dots, e);
    assert Lower("") == "";
  }

  /** Page titles keep their case; `Notes.md` is a page name but not the
      notes file of a release. */
  lemma PageExamples()
    ensures IsPageFile("02 About.MD") && PageTitle("02 About.MD") == "About"
    ensures !IsNotesFile("Notes.md")
  {
    assert "02 About"[0] != '.';
    SplitExtAtLastDot("02 About", "MD");
    assert "02 About" + "." + "MD" == "02 About.MD";
    assert Lower(".MD") == ".md";
    assert NumericPrefix("02 About", 2);
  }
}
