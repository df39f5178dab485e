/** Printing and parsing Hugging Face snapshot paths. */
module SnapshotPath {
  import opened Wrappers

  const HF_HUB_ROOT := "/cache/huggingface/hub"
  const HF_MODELS_PREFIX := "models--"
  const MARKER := "/models--"
  const SNAPSHOTS_SEGMENT := "/snapshots/"

  // ---------------------------------------------------------------- Python strings

  /** `s.replace(old, new)`: leftmost matches first, never overlapping. */
  function Replace(s: string, old_: string, new_: string): string
    requires old_ != ""
  {
    if s == "" then ""
    else if old_ <= s then new_ + Replace(s[|old_|..], old_, new_)
    else [s[0]] + Replace(s[1..], old_, new_)
  }

  /** `s.find(part)` */
  function Find(s: string, part: string): (r: int)
    ensures -1 <= r <= |s| && (r >= 0 ==> part <= s[r..])
  {
    if part <= s then 0
    else if s == "" then -1
    else
      var r := Find(s[1..], part);
      if r < 0 then -1 else r + 1
  }

  predicate Contains(s: string, part: string) { Find(s, part) >= 0 }

  /** `s.strip(c)` */
  function Strip(s: string, c: char): string
    decreases |s|
  {
    if s != "" && s[0] == c then Strip(s[1..], c)
    else if s != "" && s[|s| - 1] == c then Strip(s[..|s| - 1], c)
    else s
  }

  // ---------------------------------------------------------------- the two functions

  function HfSnapshotPath(repoId: string, revision: string): string {
    HF_HUB_ROOT + "/" + HF_MODELS_PREFIX + Replace(repoId, "/", "--") + SNAPSHOTS_SEGMENT + revision
  }

  function ParseRest(rest: string): Option<(string, string)> {
    var snap := Find(rest, SNAPSHOTS_SEGMENT);
    if snap < 0 then None
    else
      var repo := Replace(rest[..snap], "--", "/");
      var revision := Strip(rest[snap + |SNAPSHOTS_SEGMENT|..], '/');
      if repo == "" || revision == "" || '/' in revision then None else Some((repo, revision))
  }

  function ParseHfSnapshot(path: string): Option<(string, string)> {
    var text := Replace(path, "\\", "/");
    var start := Find(text, MARKER);
    if start < 0 then
      if HF_MODELS_PREFIX <= text then ParseRest(text[|HF_MODELS_PREFIX|..]) else None
    else ParseRest(text[start + |MARKER|..])
  }

  // ---------------------------------------------------------------- characters

  lemma {:induction false} ReplaceDraws(s: string, old_: string, new_: string, c: char)
    requires old_ != "" && c in Replace(s, old_, new_)
    ensures c in s || c in new_
  {
    if s == "" {
    } else if old_ <= s {
      if c !in new_ {
        ReplaceDraws(s[|old_|..], old_, new_, c);
      }
    } else if c != s[0] {
      ReplaceDraws(s[1..], old_, new_, c);
    }
  }

  lemma {:induction false} ReplaceRemoves(s: string, c: char, new_: string)
    requires c !in new_
    ensures c !in Replace(s, [c], new_)
  {
    if s == "" {
    } else {
      assert [c] <= s <==> s[0] == c;
      ReplaceRemoves(s[1..], c, new_);
    }
  }

  lemma {:induction false} ReplaceNothing(s: string, c: char, new_: string)
    requires c !in s
    ensures Replace(s, [c], new_) == s
  {
    if s == "" {
    } else {
      assert s[0] == [c][0] <==> [c] <= s;
      ReplaceNothing(s[1..], c, new_);
      assert s == [s[0]] + s[1..];
    }
  }

  lemma {:induction false} StripDraws(s: string, c: char, d: char)
    requires d in Strip(s, c)
    ensures d in s
    decreases |s|
  {
    if s != "" && s[0] == c {
      StripDraws(s[1..], c, d);
    } else if s != "" && s[|s| - 1] == c {
      StripDraws(s[..|s| - 1], c, d);
    }
  }

  // ---------------------------------------------------------------- slashes and dashes

  /** Decoding a string without slashes leaves neither two dashes nor a dash before a slash. */
  lemma {:induction false} DecodedIsPlain(s: string)
    requires '/' !in s
    ensures !Contains(Replace(s, "--", "/"), "--") && !Contains(Replace(s, "--", "/"), "-/")
  {
    if s == "" {
    } else if "--" <= s {
      DecodedIsPlain(s[2..]);
      NotFirst('/', Replace(s[2..], "--", "/"));
    } else {
      var rest := Replace(s[1..], "--", "/");
      DecodedIsPlain(s[1..]);
      if s[0] == '-' && s[1..] != "" {
        assert s == "-" + s[1..];
        assert s[1] != '-';
        assert rest[0] == s[1];
      }
      NotFirst(s[0], rest);
    }
  }

  lemma NotFirst(c: char, rest: string)
    requires c == '-' && rest != "" ==> rest[0] != '-' && rest[0] != '/'
    requires !Contains(rest, "--") && !Contains(rest, "-/")
    ensures !Contains([c] + rest, "--") && !Contains([c] + rest, "-/")
  {
    var s := [c] + rest;
    assert s[1..] == rest;
    assert s[0] == c && (|s| > 1 ==> s[1] == rest[0]);
    assert "--"[0] == '-' && "--"[1] == '-' && "-/"[0] == '-' && "-/"[1] == '/';
  }

  /** Without two dashes and without a dash before a slash, decoding undoes encoding. */
  lemma {:induction false} EncodeDecode(r: string)
    requires !Contains(r, "--") && !Contains(r, "-/")
    ensures Replace(Replace(r, "/", "--"), "--", "/") == r
  {
    if r == "" {
    } else {
      var rest := Replace(r[1..], "/", "--");
      EncodeDecode(r[1..]);
      if r[0] == '/' {
        assert "/" <= r;
        assert Replace(r, "/", "--") == "--" + rest;
        assert ("--" + rest)[2..] == rest;
      } else {
        assert Replace(r, "/", "--") == [r[0]] + rest;
        assert ([r[0]] + rest)[1..] == rest;
        FirstOfEncoded(r[1..]);
        Dashes(r);
        Dashes([r[0]] + rest);
        assert !("--" <= [r[0]] + rest);
      }
      assert r == [r[0]] + r[1..];
    }
  }

  lemma Dashes(s: string)
    ensures "--" <= s <==> |s| >= 2 && s[0] == '-' && s[1] == '-'
    ensures "-/" <= s <==> |s| >= 2 && s[0] == '-' && s[1] == '/'
  {
    assert "--" == ['-', '-'] && "-/" == ['-', '/'];
  }

  lemma FirstOfEncoded(r: string)
    ensures Replace(r, "/", "--") != "" && Replace(r, "/", "--")[0] == '-' ==> r != "" && (r[0] == '-' || r[0] == '/')
  {
  }

  // ---------------------------------------------------------------- finding

  lemma {:induction false} FindFirst(before: string, s: string, part: string)
    requires part <= s && forall i | 0 <= i < |before| :: !(part <= (before + s)[i..])
    ensures Find(before + s, part) == |before|
  {
    if before == "" {
      assert before + s == s;
    } else {
      assert (before + s)[0..] == before + s;
      assert (before + s)[1..] == before[1..] + s;
      assert forall i | 0 <= i < |before| - 1 :: (before[1..] + s)[i..] == (before + s)[i + 1..];
      FindFirst(before[1..], s, part);
    }
  }

  lemma FindMarker(rest: string)
    ensures Find(HF_HUB_ROOT + (MARKER + rest), MARKER) == |HF_HUB_ROOT|
  {
    var s := MARKER + rest;
    forall i | 0 <= i < |HF_HUB_ROOT| ensures !(MARKER <= (HF_HUB_ROOT + s)[i..]) {
      assert MARKER[0] == '/' && MARKER[1] == 'm';
      assert HF_HUB_ROOT[i] == '/' ==> i + 1 < |HF_HUB_ROOT| && HF_HUB_ROOT[i + 1] != 'm';
    }
    FindFirst(HF_HUB_ROOT, s, MARKER);
  }

  lemma FindSegment(repo: string, revision: string)
    requires '/' !in repo
    ensures Find(repo + (SNAPSHOTS_SEGMENT + revision), SNAPSHOTS_SEGMENT) == |repo|
  {
    var s := SNAPSHOTS_SEGMENT + revision;
    forall i | 0 <= i < |repo| ensures !(SNAPSHOTS_SEGMENT <= (repo + s)[i..]) {
      assert SNAPSHOTS_SEGMENT[0] == '/' && (repo + s)[i..][0] == repo[i];
    }
    FindFirst(repo, s, SNAPSHOTS_SEGMENT);
  }

  // ---------------------------------------------------------------- the round trip

  /** What a caller can check before printing. */
  predicate Printable(repoId: string, revision: string) {
    && repoId != "" && revision != "" && '\\' !in repoId && '\\' !in revision && '/' !in revision
    && !Contains(repoId, "--") && !Contains(repoId, "-/")
  }

  lemma StripNothing(s: string, c: char)
    requires c !in s
    ensures Strip(s, c) == s
  {
  }

  lemma PathShape(r: string, v: string)
    ensures HfSnapshotPath(r, v) == HF_HUB_ROOT + (MARKER + (Replace(r, "/", "--") + (SNAPSHOTS_SEGMENT + v)))
  {
    hide Replace;
    assert MARKER == "/" + HF_MODELS_PREFIX;
  }

  lemma PastMarker(rest: string)
    requires '\\' !in rest
    ensures ParseHfSnapshot(HF_HUB_ROOT + (MARKER + rest)) == ParseRest(rest)
  {
    hide Find, Replace, ParseRest;
    var path := HF_HUB_ROOT + (MARKER + rest);
    assert '\\' !in HF_HUB_ROOT && '\\' !in MARKER;
    ReplaceNothing(path, '\\', "/");
    FindMarker(rest);
    assert path[|HF_HUB_ROOT| + |MARKER|..] == rest;
  }

  lemma PastSegment(encoded: string, v: string)
    requires '/' !in encoded && '/' !in v
    ensures ParseRest(encoded + (SNAPSHOTS_SEGMENT + v)) ==
              if Replace(encoded, "--", "/") == "" || v == "" then None else Some((Replace(encoded, "--", "/"), v))
  {
    hide Find, Replace, Strip;
    var rest := encoded + (SNAPSHOTS_SEGMENT + v);
    FindSegment(encoded, v);
    assert rest[..|encoded|] == encoded && rest[|encoded| + |SNAPSHOTS_SEGMENT|..] == v;
    StripNothing(v, '/');
  }

  /** A printed path without backslashes parses to the decoded repository and the bare revision. */
  lemma ParsePrinted(r: string, v: string)
    requires '\\' !in r && '\\' !in v && '/' !in v
    ensures var repo := Replace(Replace(r, "/", "--"), "--", "/");
            ParseHfSnapshot(HfSnapshotPath(r, v)) == if repo == "" || v == "" then None else Some((repo, v))
  {
    hide Find, Replace, HfSnapshotPath, ParseHfSnapshot, ParseRest;
    var encoded := Replace(r, "/", "--");
    if '\\' in encoded { ReplaceDraws(r, "/", "--", '\\'); }
    assert '\\' !in SNAPSHOTS_SEGMENT;
    PathShape(r, v);
    PastMarker(encoded + (SNAPSHOTS_SEGMENT + v));
    ReplaceRemoves(r, '/', "--");
    PastSegment(encoded, v);
  }

  /** Nothing that parses holds a backslash, an empty part, or a slash in its revision. */
  lemma ParsedIsBare(path: string)
    requires ParseHfSnapshot(path).Some?
    ensures var (r, v) := ParseHfSnapshot(path).value;
            r != "" && v != "" && '\\' !in r && '\\' !in v && '/' !in v
  {
    hide Find, Replace, Strip;
    var text := Replace(path, "\\", "/");
    ReplaceRemoves(path, '\\', "/");
    var start := Find(text, MARKER);
    var rest := if start < 0 then text[|HF_MODELS_PREFIX|..] else text[start + |MARKER|..];
    var snap := Find(rest, SNAPSHOTS_SEGMENT);
    var (r, v) := ParseHfSnapshot(path).value;
    assert '\\' !in rest;
    if '\\' in r { ReplaceDraws(rest[..snap], "--", "/", '\\'); }
    if '\\' in v { StripDraws(rest[snap + |SNAPSHOTS_SEGMENT|..], '/', '\\'); }
  }

  /** Printing and parsing round-trip on exactly the printable pairs. */
  lemma RoundTripExactly(r: string, v: string)
    ensures ParseHfSnapshot(HfSnapshotPath(r, v)) == Some((r, v)) <==> Printable(r, v)
  {
    hide Find, Replace, Contains, HfSnapshotPath, ParseHfSnapshot;
    if Printable(r, v) {
      ParsePrinted(r, v);
      EncodeDecode(r);
    }
    if ParseHfSnapshot(HfSnapshotPath(r, v)) == Some((r, v)) {
      ParsedIsBare(HfSnapshotPath(r, v));
      ParsePrinted(r, v);
      ReplaceRemoves(r, '/', "--");
      DecodedIsPlain(Replace(r, "/", "--"));
    }
  }

  /** So printable pairs never share a path. */
  lemma PathsDiffer(r: string, v: string, r': string, v': string)
    requires Printable(r, v) && Printable(r', v') && HfSnapshotPath(r, v) == HfSnapshotPath(r', v')
    ensures r == r' && v == v'
  {
    hide HfSnapshotPath, ParseHfSnapshot, Printable;
    RoundTripExactly(r, v);
    RoundTripExactly(r', v');
  }
}
