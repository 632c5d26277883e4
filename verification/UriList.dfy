/** Lists of files as text: pkg/rfc8089/uri_list.go writes text/uri-list (section 5 of RFC 2483) with file URIs
    (section 2 of RFC 8089), pkg/clipboard/eventful/files.go reads it. */
module UriList {
  import opened Wrappers
  import opened Machine
  import opened Lines

  /** "file://" */
  const SCHEME: Bytes := [102, 105, 108, 101, 58, 47, 47]
  const CRLF: Bytes := [RETURN, NEWLINE]
  const PERCENT: Byte := 37

  // ---------------------------------------------------------------- writing

  /** The line of the list that a line of text becomes; blank lines become none. */
  function UriOf(text: Bytes): seq<Bytes> {
    var line := Trim(text);
    if line == [] then []
    else if SCHEME <= line then [line]
    else [SCHEME + line]
  }

  function UrisOf(lines: seq<Bytes>): seq<Bytes> {
    if lines == [] then [] else UriOf(lines[0]) + UrisOf(lines[1..])
  }

  function Formatted(src: Bytes): Bytes {
    Join(UrisOf(Split(src)), CRLF)
  }

  lemma {:induction false} UrisOfMore(lines: seq<Bytes>, line: Bytes)
    ensures UrisOf(lines + [line]) == UrisOf(lines) + UriOf(line)
  {
    if lines == [] {
    } else {
      assert (lines + [line])[1..] == lines[1..] + [line];
      UrisOfMore(lines[1..], line);
    }
  }

  lemma NoUris()
    ensures UrisOf(Split([])) == []
  {
    hide BackSpace;
    NothingToTrim();
    TrimOfTrimmed([]);
    assert UrisOf([[]]) == UriOf([]) + UrisOf([]);
  }

  method FormatURIList(src: Bytes) returns (list: Bytes)
    ensures list == Formatted(src)
  {
    hide Trim;
    if |src| == 0 {
      NoUris();
      return [];
    }
    var lines := Split(src);
    var formatted: seq<Bytes> := [];
    for i := 0 to |lines|
      invariant formatted == UrisOf(lines[..i])
    {
      UrisOfMore(lines[..i], lines[i]);
      assert lines[..i + 1] == lines[..i] + [lines[i]];
      var line := Trim(lines[i]);
      if |line| == 0 {
        continue;
      }
      if !(SCHEME <= line) {
        formatted := formatted + [SCHEME + line];
      } else {
        formatted := formatted + [line];
      }
    }
    assert lines[..|lines|] == lines;
    list := Join(formatted, CRLF);
  }

  /** A line as it stands in a written list. */
  predicate IsUriLine(line: Bytes) {
    SCHEME <= line && Trimmed(line) && NEWLINE !in line
  }

  lemma UriOfIsUriLine(text: Bytes)
    requires NEWLINE !in text
    ensures forall line <- UriOf(text) :: IsUriLine(line)
  {
    hide BackSpace;
    var i, j := TrimCuts(text);
    var line := text[i..j];
    assert forall b <- line :: b in text;
    if line != [] && !(SCHEME <= line) {
      NoSpaceAcross(SCHEME, line);
      NoSpaceAfterScheme(line);
    }
  }

  lemma NoSpaceAfterScheme(line: Bytes)
    ensures FrontSpace(SCHEME + line) == 0
  {
  }

  lemma {:induction false} UrisAreUriLines(lines: seq<Bytes>)
    requires forall line <- lines :: NEWLINE !in line
    ensures forall line <- UrisOf(lines) :: IsUriLine(line)
  {
    if lines != [] {
      UriOfIsUriLine(lines[0]);
      UrisAreUriLines(lines[1..]);
    }
  }

  /** The pieces a written list is split into: all lines but the last keep a return. */
  function WithReturns(lines: seq<Bytes>): seq<Bytes> {
    if |lines| <= 1 then lines else [lines[0] + [RETURN]] + WithReturns(lines[1..])
  }

  lemma {:induction false} SplitList(lines: seq<Bytes>)
    requires lines != [] && forall line <- lines :: IsUriLine(line)
    ensures Split(Join(lines, CRLF)) == WithReturns(lines)
  {
    assert lines[0] in lines;
    if |lines| == 1 {
      SplitOneLine(lines[0]);
    } else {
      var rest := Join(lines[1..], CRLF);
      assert lines[0] + CRLF + rest == lines[0] + [RETURN] + [NEWLINE] + rest;
      SplitAtNewline(lines[0] + [RETURN], rest);
      SplitList(lines[1..]);
    }
  }

  lemma {:induction false} UrisOfUriLines(lines: seq<Bytes>)
    requires forall line <- lines :: IsUriLine(line)
    ensures UrisOf(WithReturns(lines)) == lines
  {
    if lines != [] {
      assert lines[0] in lines;
      TrimOfTrimmed(lines[0]);
      assert lines == [lines[0]] + lines[1..];
      if |lines| > 1 {
        UrisOfUriLines(lines[1..]);
        assert WithReturns(lines)[1..] == WithReturns(lines[1..]);
      } else {
        assert UrisOf(lines) == UriOf(lines[0]) + UrisOf([]);
      }
    }
  }

  /** Formatting a list that is formatted changes nothing. */
  lemma FormattingTwice(src: Bytes)
    ensures Formatted(Formatted(src)) == Formatted(src)
  {
    var uris := UrisOf(Split(src));
    PiecesHaveNoNewline(src);
    UrisAreUriLines(Split(src));
    if uris == [] {
      NoUris();
    } else {
      SplitList(uris);
      UrisOfUriLines(uris);
    }
  }

  // ---------------------------------------------------------------- reading

  datatype Stat = Stat(size: Uint64, modTime: Uint64, isDir: bool)

  /** What the program asks of its surroundings: `os.Lstat` and `url.PathUnescape`, none for an error. */
  datatype World = World(lstat: Bytes -> Option<Stat>, unescape: Bytes -> Option<Bytes>)

  datatype FileInfo = FileInfo(path: Bytes, size: Uint64, modTime: Uint64)

  function ParseFileURI(w: World, line: Bytes): Option<FileInfo> {
    if line == [] || !(SCHEME <= line) then None
    else
      var raw := line[|SCHEME|..];
      var path := if PERCENT in raw && w.unescape(raw).Some? then w.unescape(raw).value else raw;
      match w.lstat(path)
      case None => None
      case Some(info) => if info.isDir then None else Some(FileInfo(path, info.size, info.modTime))
  }

  function Chopped(line: Bytes): Bytes {
    if line != [] && line[|line| - 1] == RETURN then line[..|line| - 1] else line
  }

  function InfosOf(w: World, lines: seq<Bytes>): seq<FileInfo> {
    if lines == [] then [] else
    (match ParseFileURI(w, Chopped(lines[0])) case None => [] case Some(info) => [info]) + InfosOf(w, lines[1..])
  }

  /** No more than `limit` of them; any number if the limit is not positive. */
  function Limited<T>(s: seq<T>, limit: int): seq<T> {
    if 0 < limit < |s| then s[..limit] else s
  }

  lemma InfosStep(w: World, lines: seq<Bytes>)
    ensures InfosOf(w, []) == InfosOf(w, Split([])) == []
    ensures lines != [] ==>
      var info := ParseFileURI(w, Chopped(lines[0]));
      InfosOf(w, lines) == (if info.None? then [] else [info.value]) + InfosOf(w, lines[1..])
  {
    assert InfosOf(w, [[]]) == [] + InfosOf(w, []);
  }

  /** Each line adds what it names, whatever the others are. */
  lemma {:induction false} InfosOfConcat(w: World, lines: seq<Bytes>, more: seq<Bytes>)
    ensures InfosOf(w, lines + more) == InfosOf(w, lines) + InfosOf(w, more)
  {
    hide ParseFileURI, Chopped;
    if lines == [] {
      assert lines + more == more;
    } else {
      assert (lines + more)[1..] == lines[1..] + more;
      InfosOfConcat(w, lines[1..], more);
    }
  }

  /** A line that is "file://" and a path, with or without a return, names the file at that path, unescaped if it holds
      a percent sign and unescaping does not fail. It adds the file with its size and time, unless there is none or it
      is a directory. */
  lemma LineAddsFile(w: World, raw: Bytes, line: Bytes)
    requires line == SCHEME + raw + [RETURN] || (line == SCHEME + raw && (raw == [] || raw[|raw| - 1] != RETURN))
    ensures
      var path := if 37 in raw && w.unescape(raw).Some? then w.unescape(raw).value else raw;
      InfosOf(w, [line]) == match w.lstat(path)
        case None => []
        case Some(Stat(size, modTime, isDir)) => if isDir then [] else [FileInfo(path, size, modTime)]
  {
    InfosStep(w, [line]);
    assert [line][1..] == [];
    assert Chopped(line) == SCHEME + raw;
    assert (SCHEME + raw)[|SCHEME|..] == raw;
  }

  /** A line that does not begin with "file://" adds nothing. */
  lemma OtherLineAddsNothing(w: World, line: Bytes)
    requires !([102, 105, 108, 101, 58, 47, 47] <= line)
    ensures InfosOf(w, [line]) == []
  {
    InfosStep(w, [line]);
    assert [line][1..] == [];
    assert line[..|Chopped(line)|] == Chopped(line);
  }

  /** So a line that names a directory might as well not be there. */
  lemma DirectoryAddsNothing(w: World, before: seq<Bytes>, dir: Bytes, after: seq<Bytes>)
    requires 37 !in dir && RETURN !in dir && w.lstat(dir).Some? && w.lstat(dir).value.isDir
    ensures InfosOf(w, before + [SCHEME + dir] + after) == InfosOf(w, before + after)
  {
    hide InfosOf;
    LineAddsFile(w, dir, SCHEME + dir);
    InfosOfConcat(w, before + [SCHEME + dir], after);
    InfosOfConcat(w, before, [SCHEME + dir]);
    InfosOfConcat(w, before, after);
  }

  /** `info` is what is found at its path, and no directory. */
  predicate IsFound(w: World, info: FileInfo) {
    w.lstat(info.path) == Some(Stat(info.size, info.modTime, false))
  }

  lemma {:induction false} InfosAreFound(w: World, lines: seq<Bytes>)
    ensures forall info <- InfosOf(w, lines) :: IsFound(w, info)
  {
    if lines != [] {
      InfosAreFound(w, lines[1..]);
    }
  }

  /** The list that is read: no directory is in it and every file has its size and time; with a positive limit it has
      at most so many entries; it is the front of what no limit gives, and all of that if that is no longer. */
  lemma FilesUpToLimit(w: World, data: Bytes, limit: int)
    ensures
      var res, all := Limited(InfosOf(w, Split(data)), limit), Limited(InfosOf(w, Split(data)), 0);
      && (forall info <- res :: IsFound(w, info))
      && res <= all && (0 < limit ==> |res| <= limit)
      && (limit <= 0 || |all| <= limit ==> res == all) && (0 < limit < |all| ==> |res| == limit)
  {
    hide InfosOf, Split;
    InfosAreFound(w, Split(data));
  }

  /** `bytes.Cut` at a newline, and a return before it cut off. */
  method NextLine(data: Bytes) returns (line: Bytes, rest: Bytes)
    requires data != []
    ensures |rest| < |data|
    ensures line == Chopped(Split(data)[0])
    ensures Split(data)[1..] == Split(rest) || (rest == [] && Split(data)[1..] == [])
  {
    var i := 0;
    while i < |data| && data[i] != NEWLINE
      invariant i <= |data| && NEWLINE !in data[..i]
    {
      assert data[..i + 1] == data[..i] + [data[i]];
      i := i + 1;
    }
    if i < |data| {
      line, rest := data[..i], data[i + 1..];
      assert data == data[..i] + [NEWLINE] + rest;
      SplitAtNewline(data[..i], rest);
    } else {
      assert data[..i] == data;
      line, rest := data, [];
      SplitOneLine(data);
    }
    if |line| > 0 && line[|line| - 1] == RETURN {
      line := line[..|line| - 1];
    }
  }

  /** The files named in the lines of `data`, up to the limit. */
  method FileInfoFromRaw(w: World, data: Bytes, limit: int) returns (res: seq<FileInfo>)
    ensures res == Limited(InfosOf(w, Split(data)), limit)
    ensures res <= InfosOf(w, Split(data)) && (0 < limit ==> |res| <= limit)
    ensures res != InfosOf(w, Split(data)) ==> 0 < limit == |res|
  {
    hide InfosOf, Split, ParseFileURI, Chopped;
    res := [];
    var left := data;
    while |left| > 0
      invariant res + InfosOf(w, Split(left)) == InfosOf(w, Split(data))
      invariant 0 < limit ==> |res| <= limit
      decreases |left|
    {
      if limit > 0 && |res| >= limit {
        break;
      }
      InfosStep(w, Split(left));
      var line;
      line, left := NextLine(left);
      var info := ParseFileURI(w, line);
      if info.Some? {
        res := res + [info.value];
      }
    }
    if left == [] {
      InfosStep(w, []);
    }
  }

  // ---------------------------------------------------------------- there and back

  /** Unescaping does not change the path, if it does not fail. */
  predicate HoldsNoEscape(w: World, path: Bytes) {
    PERCENT in path && w.unescape(path).Some? ==> w.unescape(path).value == path
  }

  /** A path that the text between keeps as it is. */
  predicate IsPlain(w: World, path: Bytes) {
    path != [] && Trimmed(path) && !(SCHEME <= path) && HoldsNoEscape(w, path) && NEWLINE !in path
  }

  predicate IsFile(w: World, path: Bytes) {
    w.lstat(path).Some? && !w.lstat(path).value.isDir
  }

  function InfoOf(w: World, path: Bytes): FileInfo
    requires IsFile(w, path)
  {
    FileInfo(path, w.lstat(path).value.size, w.lstat(path).value.modTime)
  }

  ghost predicate AllPlainFiles(w: World, paths: seq<Bytes>) {
    forall i :: 0 <= i < |paths| ==> IsPlain(w, paths[i]) && IsFile(w, paths[i])
  }

  function Infos(w: World, paths: seq<Bytes>): seq<FileInfo>
    requires AllPlainFiles(w, paths)
  {
    seq(|paths|, i requires 0 <= i < |paths| => InfoOf(w, paths[i]))
  }

  function Uris(paths: seq<Bytes>): seq<Bytes> {
    if paths == [] then [] else [SCHEME + paths[0]] + Uris(paths[1..])
  }

  lemma PlainUri(w: World, path: Bytes)
    requires IsPlain(w, path)
    ensures UriOf(path) == [SCHEME + path] && IsUriLine(SCHEME + path)
  {
    hide Trimmed, Trim;
    TrimOfTrimmed(path);
    UriOfIsUriLine(path);
    assert SCHEME + path in UriOf(path);
  }

  lemma {:induction false} PlainUris(w: World, paths: seq<Bytes>)
    requires AllPlainFiles(w, paths)
    ensures UrisOf(paths) == Uris(paths)
    ensures forall uri <- Uris(paths) :: IsUriLine(uri)
  {
    hide IsPlain, IsUriLine, UriOf;
    if paths != [] {
      PlainUri(w, paths[0]);
      PlainUris(w, paths[1..]);
    }
  }

  lemma PlainLine(w: World, path: Bytes)
    requires IsPlain(w, path) && IsFile(w, path)
    ensures ParseFileURI(w, Chopped(SCHEME + path)) == Some(InfoOf(w, path))
    ensures ParseFileURI(w, Chopped(SCHEME + path + [RETURN])) == Some(InfoOf(w, path))
  {
    hide FrontSpace, BackSpace;
    var line := SCHEME + path;
    ReturnIsSpace(path[..|path| - 1]);
    assert path == path[..|path| - 1] + [path[|path| - 1]];
    assert line[|line| - 1] == path[|path| - 1];
    assert (line + [RETURN])[..|line|] == line;
    assert line[|SCHEME|..] == path;
  }

  lemma {:induction false} PlainLines(w: World, paths: seq<Bytes>)
    requires AllPlainFiles(w, paths)
    ensures InfosOf(w, WithReturns(Uris(paths))) == Infos(w, paths)
  {
    hide IsPlain, ParseFileURI, Chopped, InfoOf;
    if paths != [] {
      PlainLine(w, paths[0]);
      PlainLines(w, paths[1..]);
      var uris := Uris(paths);
      assert uris[1..] == Uris(paths[1..]);
      assert Infos(w, paths) == [InfoOf(w, paths[0])] + Infos(w, paths[1..]);
      if |paths| > 1 {
        assert WithReturns(uris)[1..] == WithReturns(uris[1..]);
      }
    }
  }

  lemma {:induction false} UrisAre(paths: seq<Bytes>)
    ensures |Uris(paths)| == |paths|
    ensures forall i :: 0 <= i < |paths| ==> Uris(paths)[i] == [102, 105, 108, 101, 58, 47, 47] + paths[i]
  {
    if paths != [] {
      UrisAre(paths[1..]);
    }
  }

  /** What is written for such paths: "file://" before each, and a return and a newline between them. */
  lemma PathsAreListed(w: World, paths: seq<Bytes>) returns (lines: seq<Bytes>)
    requires AllPlainFiles(w, paths)
    ensures Formatted(Join(paths, [10])) == Join(lines, [13, 10]) && |lines| == |paths|
    ensures forall i :: 0 <= i < |paths| ==> lines[i] == [102, 105, 108, 101, 58, 47, 47] + paths[i]
  {
    lines := Uris(paths);
    UrisAre(paths);
    if paths == [] {
      NoUris();
    } else {
      forall path <- paths ensures NEWLINE !in path {
      }
      SplitOfJoin(paths);
      PlainUris(w, paths);
    }
  }

  /** Paths joined by newlines, made a list and read again are the same paths in the same order, as many as the
      limit lets through. */
  lemma PathsComeThrough(w: World, paths: seq<Bytes>, limit: int)
    requires AllPlainFiles(w, paths)
    ensures Limited(InfosOf(w, Split(Formatted(Join(paths, [NEWLINE])))), limit) == Limited(Infos(w, paths), limit)
  {
    if paths == [] {
      NoUris();
      InfosStep(w, []);
    } else {
      forall path <- paths ensures NEWLINE !in path {
      }
      SplitOfJoin(paths);
      PlainUris(w, paths);
      SplitList(Uris(paths));
      PlainLines(w, paths);
    }
  }

  lemma OneUri(path: Bytes)
    requires NEWLINE !in path
    ensures UrisOf(Split(path)) == UriOf(path)
  {
    SplitOneLine(path);
    assert UrisOf([path]) == UriOf(path) + UrisOf([]);
  }

  function Listed(info: Option<FileInfo>): seq<FileInfo> {
    if info.None? then [] else [info.value]
  }

  lemma ReadOneUri(w: World, uri: Bytes)
    requires IsUriLine(uri)
    ensures InfosOf(w, Split(Join([uri], CRLF))) == Listed(ParseFileURI(w, uri))
  {
    hide InfosOf, Split, ParseFileURI;
    SplitOneLine(uri);
    InfosStep(w, [uri]);
    assert [uri][1..] == [];
    assert Chopped(uri) == uri;
  }

  lemma OneLine(w: World, path: Bytes)
    requires NEWLINE !in path
    ensures InfosOf(w, Split(Formatted(path))) ==
      if UriOf(path) == [] then [] else Listed(ParseFileURI(w, UriOf(path)[0]))
  {
    hide InfosOf, Split, ParseFileURI, UrisOf, IsUriLine, Trim, Listed;
    OneUri(path);
    UriOfIsUriLine(path);
    if UriOf(path) == [] {
      InfosStep(w, []);
    } else {
      var uri := UriOf(path)[0];
      assert uri in UriOf(path);
      assert UriOf(path) == [uri];
      ReadOneUri(w, uri);
    }
  }

  /** An escape takes no less room than what it stands for. */
  ghost predicate NeverLengthens(w: World) {
    forall raw :: w.unescape(raw).Some? ==> |w.unescape(raw).value| <= |raw|
  }

  lemma ReadPathIsNoLonger(w: World, line: Bytes)
    requires NeverLengthens(w)
    ensures ParseFileURI(w, line).Some? ==> |ParseFileURI(w, line).value.path| + |SCHEME| <= |line|
  {
  }

  /** Every piece of a string that holds a newline is shorter than it. */
  lemma {:induction false} PiecesAreShorter(s: Bytes)
    ensures forall piece <- Split(s) :: |piece| <= |s| && (NEWLINE in s ==> |piece| < |s|)
  {
    if s != [] {
      PiecesAreShorter(s[1..]);
      var rest := Split(s[1..]);
      assert rest[0] in rest;
    }
  }

  lemma UriIsNoLonger(text: Bytes)
    ensures forall uri <- UriOf(text) :: |uri| <= |SCHEME| + |text|
  {
    hide Trim, Trimmed;
    var i, j := TrimCuts(text);
  }

  lemma {:induction false} UrisAreNoLonger(lines: seq<Bytes>, n: nat)
    requires forall line <- lines :: |line| <= n
    ensures forall uri <- UrisOf(lines) :: |uri| <= |SCHEME| + n
  {
    if lines != [] {
      UriIsNoLonger(lines[0]);
      UrisAreNoLonger(lines[1..], n);
    }
  }

  lemma {:induction false} InfosAreNoLonger(w: World, uris: seq<Bytes>, n: nat)
    requires NeverLengthens(w) && forall uri <- uris :: IsUriLine(uri) && |uri| <= |SCHEME| + n
    ensures forall info <- InfosOf(w, WithReturns(uris)) :: |info.path| <= n
  {
    hide ParseFileURI, NeverLengthens;
    if uris != [] {
      var line := WithReturns(uris)[0];
      assert uris[0] in uris && |Chopped(line)| <= |uris[0]| by { ChoppedUri(uris[0]); }
      ReadPathIsNoLonger(w, Chopped(line));
      InfosAreNoLonger(w, uris[1..], n);
      InfosStep(w, WithReturns(uris));
      assert WithReturns(uris)[1..] == WithReturns(uris[1..]);
    }
  }

  lemma ChoppedUri(uri: Bytes)
    ensures |Chopped(uri)| <= |uri| && Chopped(uri + [RETURN]) == uri
  {
    assert (uri + [RETURN])[..|uri|] == uri;
  }

  /** A name that holds a newline falls apart into shorter ones. */
  lemma NewlineIsLost(w: World, path: Bytes)
    requires NeverLengthens(w) && NEWLINE in path
    ensures forall info <- InfosOf(w, Split(Formatted(path))) :: |info.path| < |path|
  {
    hide InfosOf, ParseFileURI, Trim;
    var uris := UrisOf(Split(path));
    PiecesHaveNoNewline(path);
    PiecesAreShorter(path);
    UrisAreUriLines(Split(path));
    UrisAreNoLonger(Split(path), |path| - 1);
    if uris == [] {
      InfosStep(w, []);
    } else {
      SplitList(uris);
      InfosAreNoLonger(w, uris, |path| - 1);
    }
  }

  /** Just those names come through alone that are trimmed, do not look like a URI and hold neither an escape nor a
      newline. */
  lemma OnePathComesThroughExactlyWhen(w: World, path: Bytes)
    requires NeverLengthens(w) && IsFile(w, path)
    ensures InfosOf(w, Split(Formatted(path))) == [InfoOf(w, path)] <==> IsPlain(w, path)
  {
    hide InfosOf, Split, Formatted, Trim;
    if NEWLINE in path {
      NewlineIsLost(w, path);
      assert InfoOf(w, path) in [InfoOf(w, path)];
    } else {
      OneLineComesThroughExactlyWhen(w, path);
    }
  }

  lemma OneLineComesThroughExactlyWhen(w: World, path: Bytes)
    requires NeverLengthens(w) && NEWLINE !in path && IsFile(w, path)
    ensures InfosOf(w, Split(Formatted(path))) == [InfoOf(w, path)]
       <==> path != [] && Trimmed(path) && !(SCHEME <= path) && HoldsNoEscape(w, path)
  {
    hide InfosOf, Split, Formatted, Trim, Trimmed;
    OneLine(w, path);
    var i, j := TrimCuts(path);
    var line := path[i..j];
    if Trimmed(path) {
      TrimOfTrimmed(path);
    }
    assert !Trimmed(path) ==> |line| < |path| by {
      assert |line| == |path| ==> line == path;
    }
    if line != [] {
      assert (SCHEME + line)[|SCHEME|..] == line;
      var uri := UriOf(path)[0];
      ReadPathIsNoLonger(w, uri);
    }
  }
}
