/// The output path derived from an input image path.
module FilePaths {

  const ClusteredSuffix: string := "_clustered.jpg"

  /** `str::split(".")`: the pieces between dots, in order. There is always at least one
      piece, so taking the first one never fails, and the first piece is the text before
      the first dot (all of s when there is none). */
  function SplitOnDot(s: string): (pieces: seq<string>)
    ensures |pieces| >= 1
    ensures forall i :: 0 <= i < |pieces| ==> '.' !in pieces[i]
    ensures pieces[0] <= s
    ensures |pieces[0]| < |s| ==> s[|pieces[0]|] == '.'
    decreases |s|
  {
    if s == [] then [""]
    else
      var rest := SplitOnDot(s[1..]);
      if s[0] == '.' then [""] + rest
      else [[s[0]] + rest[0]] + rest[1..]
  }

  /** Gluing the pieces back together with dots. */
  function JoinWithDot(pieces: seq<string>): string
    requires |pieces| >= 1
  {
    if |pieces| == 1 then pieces[0] else pieces[0] + "." + JoinWithDot(pieces[1..])
  }

  /** Splitting loses nothing: the pieces joined with dots give back the input. */
  lemma {:induction false} JoinSplit(s: string)
    ensures JoinWithDot(SplitOnDot(s)) == s
    decreases |s|
  {
    if s != [] {
      JoinSplit(s[1..]);
      var rest := SplitOnDot(s[1..]);
      if s[0] != '.' && |rest| > 1 {
        assert ([[s[0]] + rest[0]] + rest[1..])[1..] == rest[1..];
      }
      assert s == [s[0]] + s[1..];
    }
  }

  /** `clustered_file_path`: the text before the first dot, then "_clustered.jpg". */
  function ClusteredFilePath(path: string): (r: string)
    ensures |r| >= |ClusteredSuffix|
    ensures var k := |r| - |ClusteredSuffix|;
            && k <= |path|
            && r[..k] == path[..k]
            && r[k..] == ClusteredSuffix
            && '.' !in r[..k]
            && (k < |path| ==> path[k] == '.')
  {
    var start := SplitOnDot(path)[0];
    var result := start;
    result + ClusteredSuffix
  }

  /** A path without a dot is kept whole. */
  lemma NoDotKeepsPath(path: string)
    requires '.' !in path
    ensures ClusteredFilePath(path) == path + ClusteredSuffix
  {
    var r := ClusteredFilePath(path);
    var k := |r| - |ClusteredSuffix|;
    assert r == r[..k] + r[k..];
  }

  /** Everything from the first dot on is dropped, even a leading "./". */
  lemma LeadingDotDropsAll()
    ensures ClusteredFilePath("./x.png") == "_clustered.jpg"
  {
    var r := ClusteredFilePath("./x.png");
    assert "./x.png"[0] == '.';
    assert |r| - |ClusteredSuffix| == 0;
    assert r == r[0..];
  }
}
