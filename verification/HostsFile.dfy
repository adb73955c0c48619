/** The hosts-file editor of the privileged helper: four tools, each with one
    marked block, in a text that otherwise belongs to someone else. */
module HostsFile {

  datatype Result<+T> = Ok(value: T) | CorruptMarkers

  datatype Tool = Antigravity | Copilot | Cursor | Kiro

  function Name(tool: Tool): string {
    match tool
    case Antigravity => "antigravity"
    case Copilot => "copilot"
    case Cursor => "cursor"
    case Kiro => "kiro"
  }

  function Hosts(tool: Tool): seq<string> {
    match tool
    case Antigravity => ["daily-cloudcode-pa.googleapis.com", "cloudcode-pa.googleapis.com"]
    case Copilot => ["api.individual.githubcopilot.com"]
    case Cursor => ["api2.cursor.sh"]
    case Kiro => ["runtime.us-east-1.kiro.dev", "q.us-east-1.amazonaws.com",
                  "codewhisperer.us-east-1.amazonaws.com"]
  }

  const BEGIN := "# nullrouter-mitm begin "
  const END := "# nullrouter-mitm end "

  function Begin(tool: Tool): string { BEGIN + Name(tool) }

  function End(tool: Tool): string { END + Name(tool) }

  // ------------------------------------------------ lines of a text

  function Find(s: string, c: char): (k: nat)
    ensures k <= |s|
    ensures c !in s[..k]
    ensures k < |s| ==> s[k] == c
  {
    if s == "" || s[0] == c then 0 else 1 + Find(s[1..], c)
  }

  predicate EndsInCr(line: string) { line != "" && line[|line| - 1] == '\r' }

  function WithoutCr(line: string): string {
    if EndsInCr(line) then line[..|line| - 1] else line
  }

  /** The lines of a text: a terminator is `\n` or `\r\n`, and the last line
      need not have one. */
  function Lines(s: string): seq<string> {
    if s == "" then []
    else
      var k := Find(s, '\n');
      if k == |s| then [s] else [WithoutCr(s[..k])] + Lines(s[k + 1..])
  }

  predicate HasCrLf(s: string) {
    |s| >= 2 && ((s[0] == '\r' && s[1] == '\n') || HasCrLf(s[1..]))
  }

  function Eol(s: string): string { if HasCrLf(s) then "\r\n" else "\n" }

  function Join(lines: seq<string>, newline: string): string {
    if lines == [] then "" else if |lines| == 1 then lines[0] else lines[0] + newline + Join(lines[1..], newline)
  }

  /** Each line followed by its terminator. */
  function Terminated(lines: seq<string>, newline: string): string {
    if lines == [] then "" else lines[0] + newline + Terminated(lines[1..], newline)
  }

  predicate OneLine(line: string) { '\n' !in line }

  predicate AllOneLine(lines: seq<string>) { forall i :: 0 <= i < |lines| ==> OneLine(lines[i]) }

  predicate NoCr(lines: seq<string>) { forall i :: 0 <= i < |lines| ==> !EndsInCr(lines[i]) }

  lemma FindAt(head: string, c: char, tail: string)
    requires c !in head
    ensures Find(head + [c] + tail, c) == |head|
  {
    var s := head + [c] + tail;
    assert s[|head|] == c;
    assert s[..|head|] == head;
  }

  lemma {:induction false} CrLfLine(line: string, tail: string)
    requires OneLine(line)
    ensures HasCrLf(line + "\n" + tail) <==> EndsInCr(line) || HasCrLf(tail)
  {
    var s := line + "\n" + tail;
    if line == "" {
      assert s[1..] == tail;
    } else {
      assert s[1..] == line[1..] + "\n" + tail;
      assert OneLine(line[1..]);
      CrLfLine(line[1..], tail);
      assert s[0] == line[0];
      assert |line| > 1 ==> s[1] == line[1] && line[1] != '\n';
    }
  }

  lemma SplitAtLineFeed(s: string)
    requires Find(s, '\n') < |s|
    ensures var k := Find(s, '\n'); s == s[..k] + "\n" + s[k + 1..] && OneLine(s[..k])
  {
    hide Find;
    var k := Find(s, '\n');
    CutAround(s, k);
  }

  lemma CutAround(s: string, k: nat)
    requires k < |s|
    ensures s == s[..k] + [s[k]] + s[k + 1..]
  {
    assert s == s[..k] + s[k..] && s[k..] == [s[k]] + s[k + 1..];
  }

  lemma {:induction false} LinesAreLines(s: string)
    ensures AllOneLine(Lines(s))
    ensures !HasCrLf(s) ==> forall i :: 0 <= i < |Lines(s)| - 1 ==> !EndsInCr(Lines(s)[i])
    ensures Lines(s) == [] <==> s == ""
  {
    hide HasCrLf, Find, WithoutCr, EndsInCr, OneLine;
    if s != "" {
      var k := Find(s, '\n');
      if k < |s| {
        LinesAreLines(s[k + 1..]);
        SplitAtLineFeed(s);
        CrLfLine(s[..k], s[k + 1..]);
        WithoutCrLine(s[..k]);
      } else {
        assert s[..k] == s;
        assert OneLine(s) by { NoFeed(s); }
      }
    }
  }

  lemma WithoutCrLine(line: string)
    requires OneLine(line)
    ensures OneLine(WithoutCr(line))
    ensures !EndsInCr(line) ==> WithoutCr(line) == line
  {
  }

  lemma NoFeed(s: string)
    requires '\n' !in s
    ensures OneLine(s)
  {
  }

  function Uncr(lines: seq<string>): (r: seq<string>)
    ensures |r| == |lines| && forall i :: 0 <= i < |lines| ==> r[i] == WithoutCr(lines[i])
  {
    if lines == [] then [] else [WithoutCr(lines[0])] + Uncr(lines[1..])
  }

  lemma LinesOfFirst(line: string, newline: string, rest: string)
    requires OneLine(line) && (newline == "\n" || newline == "\r\n")
    ensures Lines(line + newline + rest) == [if newline == "\n" then WithoutCr(line) else line] + Lines(rest)
  {
    var head := if newline == "\n" then line else line + "\r";
    var s := line + newline + rest;
    assert s == head + ['\n'] + rest;
    FindAt(head, '\n', rest);
    assert s[..|head|] == head && s[|head| + 1..] == rest;
    assert newline == "\r\n" ==> WithoutCr(head) == line;
  }

  lemma NoLines()
    ensures Lines("") == []
  {
  }

  lemma {:induction false} LinesTerminated(lines: seq<string>, newline: string)
    requires AllOneLine(lines) && (newline == "\n" || newline == "\r\n")
    ensures Lines(Terminated(lines, newline)) == if newline == "\n" then Uncr(lines) else lines
  {
    hide Lines, WithoutCr, OneLine;
    if lines != [] {
      LinesTerminated(lines[1..], newline);
      LinesOfFirst(lines[0], newline, Terminated(lines[1..], newline));
    } else {
      NoLines();
    }
  }

  lemma {:induction false} CrLfOfTerminated(lines: seq<string>, newline: string)
    requires AllOneLine(lines) && (newline == "\n" || newline == "\r\n")
    ensures HasCrLf(Terminated(lines, newline)) <==> (lines != [] && newline == "\r\n") || !NoCr(lines)
  {
    if lines != [] {
      var rest := Terminated(lines[1..], newline);
      var head := if newline == "\n" then lines[0] else lines[0] + "\r";
      assert Terminated(lines, newline) == head + "\n" + rest;
      CrLfLine(head, rest);
      CrLfOfTerminated(lines[1..], newline);
      NoCrSplit(lines);
    }
  }

  lemma NoCrSplit(lines: seq<string>)
    requires lines != []
    ensures NoCr(lines) <==> !EndsInCr(lines[0]) && NoCr(lines[1..])
  {
    if !EndsInCr(lines[0]) && NoCr(lines[1..]) {
      forall i | 0 <= i < |lines| ensures !EndsInCr(lines[i]) {
        if i > 0 {
          assert lines[i] == lines[1..][i - 1];
        }
      }
    }
  }

  lemma {:induction false} JoinTerminated(lines: seq<string>, newline: string)
    requires newline != ""
    ensures Join(lines, newline) == "" <==> lines == [] || lines == [""]
    ensures lines != [] ==> Terminated(lines, newline) == Join(lines, newline) + newline
  {
    if |lines| == 1 {
      assert lines == [lines[0]];
    } else if |lines| > 1 {
      JoinTerminated(lines[1..], newline);
    }
  }

  // ------------------------------------------------ marked blocks

  /** Lines `i` and `j` are the only markers of the tool, in order. */
  predicate BlockAt(lines: seq<string>, tool: Tool, i: int, j: int) {
    0 <= i < j < |lines| && lines[i] == Begin(tool) && lines[j] == End(tool)
    && (forall k :: 0 <= k < |lines| && lines[k] == Begin(tool) ==> k == i)
    && (forall k :: 0 <= k < |lines| && lines[k] == End(tool) ==> k == j)
  }

  predicate Unmarked(lines: seq<string>, tool: Tool) {
    Begin(tool) !in lines && End(tool) !in lines
  }

  ghost predicate Marked(lines: seq<string>, tool: Tool) {
    exists i, j :: BlockAt(lines, tool, i, j)
  }

  /** The lines outside the tool's block; nothing when its markers are not one
      well-formed block. */
  ghost function Remaining(lines: seq<string>, tool: Tool): Result<seq<string>> {
    if Unmarked(lines, tool) then Ok(lines)
    else if Marked(lines, tool) then
      var i, j :| BlockAt(lines, tool, i, j);
      Ok(lines[..i] + lines[j + 1..])
    else CorruptMarkers
  }

  lemma RemainingOfBlock(lines: seq<string>, tool: Tool, i: int, j: int)
    requires BlockAt(lines, tool, i, j)
    ensures Remaining(lines, tool) == Ok(lines[..i] + lines[j + 1..])
  {
    assert Marked(lines, tool);
  }

  /** The text the kept lines are written back as. */
  function Rendered(lines: seq<string>, newline: string): string {
    var joined := Join(lines, newline);
    if joined == "" then "" else joined + newline
  }

  ghost function WithoutBlockText(input: string, tool: Tool): Result<string> {
    match Remaining(Lines(input), tool)
    case Ok(kept) => Ok(Rendered(kept, Eol(input)))
    case CorruptMarkers => CorruptMarkers
  }

  lemma MarkersDiffer(tool: Tool)
    ensures Begin(tool) != End(tool)
  {
    assert Begin(tool)[18] == 'b' && End(tool)[18] == 'e';
  }

  /** What the scan has seen of the first `n` lines: where the markers stood,
      and the lines it keeps. */
  ghost predicate Scanned(lines: seq<string>, tool: Tool, n: int, inside: bool, sawBegin: bool, sawEnd: bool,
                          i: int, j: int, output: seq<string>)
  {
    0 <= n <= |lines| && inside == (sawBegin && !sawEnd) && (sawEnd ==> sawBegin)
    && (!sawBegin ==> NoneOf(lines, n, Begin(tool))) && (!sawEnd ==> NoneOf(lines, n, End(tool)))
    && (sawBegin ==> OneOf(lines, n, Begin(tool), i))
    && (sawEnd ==> i < j && OneOf(lines, n, End(tool), j))
    && output == (if !sawBegin then lines[..n] else if inside then lines[..i] else lines[..i] + lines[j + 1..n])
  }

  predicate NoneOf(lines: seq<string>, n: int, marker: string)
    requires n <= |lines|
  {
    forall k :: 0 <= k < n ==> lines[k] != marker
  }

  predicate OneOf(lines: seq<string>, n: int, marker: string, at: int)
    requires n <= |lines|
  {
    0 <= at < n && lines[at] == marker && forall k :: 0 <= k < n && lines[k] == marker ==> k == at
  }

  lemma MarkerNext(lines: seq<string>, n: int, marker: string, at: int)
    requires 0 <= n < |lines|
    ensures NoneOf(lines, n, marker) ==>
              if lines[n] == marker then OneOf(lines, n + 1, marker, n) else NoneOf(lines, n + 1, marker)
    ensures OneOf(lines, n, marker, at) && lines[n] != marker ==> OneOf(lines, n + 1, marker, at)
  {
  }

  lemma BeginNext(lines: seq<string>, tool: Tool, n: int, i: int, j: int, output: seq<string>)
    requires n < |lines| && Scanned(lines, tool, n, false, false, false, i, j, output) && lines[n] == Begin(tool)
    ensures Scanned(lines, tool, n + 1, true, true, false, n, j, output)
  {
    hide NoneOf, OneOf, Begin, End;
    MarkersDiffer(tool);
    MarkerNext(lines, n, Begin(tool), i);
    MarkerNext(lines, n, End(tool), j);
  }

  lemma EndNext(lines: seq<string>, tool: Tool, n: int, i: int, j: int, output: seq<string>)
    requires n < |lines| && Scanned(lines, tool, n, true, true, false, i, j, output) && lines[n] == End(tool)
    ensures Scanned(lines, tool, n + 1, false, true, true, i, n, output)
  {
    hide NoneOf, Begin, End;
    MarkersDiffer(tool);
    MarkerNext(lines, n, Begin(tool), i);
    MarkerNext(lines, n, End(tool), j);
    assert lines[..i] + lines[n + 1..n + 1] == lines[..i];
  }

  lemma OtherNext(lines: seq<string>, tool: Tool, n: int, inside: bool, sawBegin: bool, sawEnd: bool,
                  i: int, j: int, output: seq<string>)
    requires n < |lines| && Scanned(lines, tool, n, inside, sawBegin, sawEnd, i, j, output)
    requires lines[n] != Begin(tool) && lines[n] != End(tool)
    ensures Scanned(lines, tool, n + 1, inside, sawBegin, sawEnd, i, j,
                    if inside then output else output + [lines[n]])
  {
    hide NoneOf, Begin, End;
    MarkerNext(lines, n, Begin(tool), i);
    MarkerNext(lines, n, End(tool), j);
    if !sawBegin {
      assert lines[..n + 1] == lines[..n] + [lines[n]];
    } else if sawEnd {
      assert lines[j + 1..n + 1] == lines[j + 1..n] + [lines[n]];
    }
  }

  /** A marker out of place: no arrangement of the lines has one block. */
  lemma OutOfPlace(lines: seq<string>, tool: Tool, n: int, inside: bool, sawBegin: bool, sawEnd: bool,
                   i: int, j: int, output: seq<string>)
    requires n < |lines| && Scanned(lines, tool, n, inside, sawBegin, sawEnd, i, j, output)
    requires (lines[n] == Begin(tool) && sawBegin) || (lines[n] == End(tool) && (!inside || sawEnd))
    ensures Remaining(lines, tool) == CorruptMarkers
  {
    hide Begin, End, Remaining, BlockAt;
    MarkersDiffer(tool);
    if lines[n] == Begin(tool) {
      NoBlockTwice(lines, tool, i, n);
    } else {
      NoBlockBadEnd(lines, tool, n, sawEnd, j);
    }
  }

  lemma ScanEnds(lines: seq<string>, tool: Tool, inside: bool, sawBegin: bool, sawEnd: bool,
                 i: int, j: int, output: seq<string>)
    requires Scanned(lines, tool, |lines|, inside, sawBegin, sawEnd, i, j, output)
    ensures Remaining(lines, tool) == if inside || sawBegin != sawEnd then CorruptMarkers else Ok(output)
  {
    hide Begin, End, Remaining;
    if inside || sawBegin != sawEnd {
      NoBlockUnclosed(lines, tool, i);
    } else {
      RemainingIs(lines, tool, sawBegin, i, j, output);
    }
  }

  /** One pass over the lines with three flags. */
  method KeepLines(lines: seq<string>, tool: Tool) returns (r: Result<seq<string>>)
    ensures r == Remaining(lines, tool)
  {
    hide *;
    var begin, end := Begin(tool), End(tool);
    var output: seq<string> := [];
    var inside, sawBegin, sawEnd := false, false, false;
    ghost var i, j := 0, 0;
    NothingScanned(lines, tool);
    for n := 0 to |lines|
      invariant Scanned(lines, tool, n, inside, sawBegin, sawEnd, i, j, output)
      invariant inside == (sawBegin && !sawEnd) && (sawEnd ==> sawBegin)
    {
      var line := lines[n];
      if line == begin {
        if inside || sawBegin {
          OutOfPlace(lines, tool, n, inside, sawBegin, sawEnd, i, j, output);
          return CorruptMarkers;
        }
        BeginNext(lines, tool, n, i, j, output);
        inside, sawBegin, i := true, true, n;
        continue;
      }
      if line == end {
        if !inside || sawEnd {
          OutOfPlace(lines, tool, n, inside, sawBegin, sawEnd, i, j, output);
          return CorruptMarkers;
        }
        EndNext(lines, tool, n, i, j, output);
        inside, sawEnd, j := false, true, n;
        continue;
      }
      OtherNext(lines, tool, n, inside, sawBegin, sawEnd, i, j, output);
      if !inside {
        output := output + [line];
      }
    }
    ScanEnds(lines, tool, inside, sawBegin, sawEnd, i, j, output);
    if inside || sawBegin != sawEnd {
      return CorruptMarkers;
    }
    return Ok(output);
  }

  lemma NothingScanned(lines: seq<string>, tool: Tool)
    ensures Scanned(lines, tool, 0, false, false, false, 0, 0, [])
  {
  }

  method WithoutBlock(input: string, tool: Tool) returns (r: Result<string>)
    ensures r == WithoutBlockText(input, tool)
  {
    var newline := Eol(input);
    var kept := KeepLines(Lines(input), tool);
    if kept.CorruptMarkers? {
      return CorruptMarkers;
    }
    var joined := Join(kept.value, newline);
    if joined != "" {
      joined := joined + newline;
    }
    return Ok(joined);
  }

  lemma RemainingIs(lines: seq<string>, tool: Tool, marked: bool, i: int, j: int, output: seq<string>)
    requires marked ==> BlockAt(lines, tool, i, j) && output == lines[..i] + lines[j + 1..]
    requires !marked ==> output == lines
                         && forall k :: 0 <= k < |lines| ==> lines[k] != Begin(tool) && lines[k] != End(tool)
    ensures Remaining(lines, tool) == Ok(output)
  {
    if marked {
      RemainingOfBlock(lines, tool, i, j);
    } else {
      RemainingUnmarked(lines, tool);
    }
  }

  lemma RemainingUnmarked(lines: seq<string>, tool: Tool)
    requires forall k :: 0 <= k < |lines| ==> lines[k] != Begin(tool) && lines[k] != End(tool)
    ensures Remaining(lines, tool) == Ok(lines)
  {
  }

  lemma NoBlockUnclosed(lines: seq<string>, tool: Tool, i: int)
    requires 0 <= i < |lines| && lines[i] == Begin(tool)
    requires forall k :: 0 <= k < |lines| ==> lines[k] != End(tool)
    ensures Remaining(lines, tool) == CorruptMarkers
  {
  }

  lemma NoBlockTwice(lines: seq<string>, tool: Tool, i: int, n: int)
    requires 0 <= i < n < |lines| && lines[i] == lines[n] == Begin(tool)
    ensures Remaining(lines, tool) == CorruptMarkers
  {
  }

  lemma NoBlockBadEnd(lines: seq<string>, tool: Tool, n: int, second: bool, j: int)
    requires 0 <= n < |lines| && lines[n] == End(tool)
    requires if second then 0 <= j < n && lines[j] == End(tool)
             else forall k :: 0 <= k < n ==> lines[k] != Begin(tool)
    ensures Remaining(lines, tool) == CorruptMarkers
  {
  }

  // ------------------------------------------------ the file

  function HostLines(hosts: seq<string>): seq<string> {
    if hosts == [] then [] else ["127.0.0.1 " + hosts[0]] + HostLines(hosts[1..])
  }

  function Block(tool: Tool): seq<string> {
    [Begin(tool)] + HostLines(Hosts(tool)) + [End(tool)]
  }

  /** Each tool's markers and the host names between them. */
  lemma BlocksWritten(tool: Tool)
    ensures Block(tool) == ["# nullrouter-mitm begin " + Name(tool)] + HostLines(Hosts(tool))
                           + ["# nullrouter-mitm end " + Name(tool)]
    ensures Name(Antigravity) == "antigravity" && Name(Copilot) == "copilot"
    ensures Name(Cursor) == "cursor" && Name(Kiro) == "kiro"
    ensures Hosts(Antigravity) == ["daily-cloudcode-pa.googleapis.com", "cloudcode-pa.googleapis.com"]
    ensures Hosts(Copilot) == ["api.individual.githubcopilot.com"] && Hosts(Cursor) == ["api2.cursor.sh"]
    ensures Hosts(Kiro) == ["runtime.us-east-1.kiro.dev", "q.us-east-1.amazonaws.com",
                            "codewhisperer.us-east-1.amazonaws.com"]
  {
  }

  /** The lines between the markers redirect the hosts, one each and in order. */
  lemma {:induction false} HostLineEach(hosts: seq<string>)
    ensures |HostLines(hosts)| == |hosts|
    ensures forall i :: 0 <= i < |hosts| ==> HostLines(hosts)[i] == "127.0.0.1 " + hosts[i]
  {
    if hosts != [] { HostLineEach(hosts[1..]); }
  }

  ghost function EnabledText(input: string, tool: Tool): Result<string> {
    match WithoutBlockText(input, tool)
    case Ok(next) => Ok(next + Terminated(Block(tool), Eol(input)))
    case CorruptMarkers => CorruptMarkers
  }

  function CountOf(lines: seq<string>, line: string): nat {
    if lines == [] then 0 else (if lines[0] == line then 1 else 0) + CountOf(lines[1..], line)
  }

  function EnabledAnswer(input: string, tool: Tool): Result<bool> {
    var starts, ends := CountOf(Lines(input), Begin(tool)), CountOf(Lines(input), End(tool));
    if starts > 1 || ends > 1 || starts != ends then CorruptMarkers else Ok(starts == 1)
  }

  lemma {:induction false} TerminatedConcat(a: seq<string>, b: seq<string>, newline: string)
    ensures Terminated(a + b, newline) == Terminated(a, newline) + Terminated(b, newline)
  {
    if a == [] {
      assert a + b == b;
      assert Terminated([], newline) + Terminated(b, newline) == Terminated(b, newline);
    } else {
      assert (a + b)[0] == a[0] && (a + b)[1..] == a[1..] + b;
      TerminatedConcat(a[1..], b, newline);
      Associative(a[0] + newline, Terminated(a[1..], newline), Terminated(b, newline));
    }
  }

  lemma Associative(a: string, b: string, c: string)
    ensures a + (b + c) == a + b + c
  {
  }

  lemma TerminatedOne(line: string, newline: string)
    ensures Terminated([line], newline) == line + newline
  {
    assert [line][1..] == [];
  }

  lemma {:induction false} HostLinesAppend(hosts: seq<string>, host: string)
    ensures HostLines(hosts + [host]) == HostLines(hosts) + ["127.0.0.1 " + host]
  {
    if hosts == [] {
      assert hosts + [host] == [host];
    } else {
      HostLinesAppend(hosts[1..], host);
      assert (hosts + [host])[1..] == hosts[1..] + [host];
    }
  }

  lemma RenderedEnds(lines: seq<string>, newline: string)
    requires newline != ""
    ensures var next := Rendered(lines, newline);
            next == "" || (|next| >= |newline| && next[|next| - |newline|..] == newline)
  {
  }

  /** The block, pushed piece by piece. */
  method PushBlock(before: string, tool: Tool, newline: string) returns (next: string)
    ensures next == before + Terminated(Block(tool), newline)
  {
    var begin, end, hosts := Begin(tool), End(tool), Hosts(tool);
    hide Begin, End, Hosts, Terminated, HostLines;
    next := before + begin + newline;
    TerminatedOne(begin, newline);
    assert HostLines([]) == [] by { HostLinesNone(); }
    assert [begin] + [] == [begin];
    ghost var done := [begin];
    for n := 0 to |hosts|
      invariant done == [begin] + HostLines(hosts[..n])
      invariant next == before + Terminated(done, newline)
    {
      next := next + "127.0.0.1 ";
      next := next + hosts[n];
      next := next + newline;
      assert hosts[..n + 1] == hosts[..n] + [hosts[n]];
      HostLinesAppend(hosts[..n], hosts[n]);
      TerminatedConcat(done, ["127.0.0.1 " + hosts[n]], newline);
      TerminatedOne("127.0.0.1 " + hosts[n], newline);
      done := done + ["127.0.0.1 " + hosts[n]];
    }
    assert hosts[..|hosts|] == hosts;
    next := next + end + newline;
    TerminatedConcat(done, [end], newline);
    TerminatedOne(end, newline);
  }

  lemma HostLinesNone()
    ensures HostLines([]) == []
  {
  }

  /** The hosts file.  Its text is replaced whole or left alone. */
  class File {
    var content: string

    constructor (content: string)
      ensures this.content == content
    {
      this.content := content;
    }

    method EnableHosts(tool: Tool) returns (ok: bool)
      modifies this
      ensures ok <==> EnabledText(old(content), tool).Ok?
      ensures content == if ok then EnabledText(old(content), tool).value else old(content)
    {
      var original := content;
      var newline := Eol(original);
      var r := WithoutBlock(original, tool);
      if r.CorruptMarkers? {
        return false;
      }
      var next := r.value;
      RenderedEnds(Remaining(Lines(original), tool).value, newline);
      if next != "" && !(|next| >= |newline| && next[|next| - |newline|..] == newline) {
        next := next + newline;
      }
      next := PushBlock(next, tool, newline);
      content := next;
      return true;
    }

    method DisableHosts(tool: Tool) returns (ok: bool)
      modifies this
      ensures ok <==> WithoutBlockText(old(content), tool).Ok?
      ensures content == if ok then WithoutBlockText(old(content), tool).value else old(content)
    {
      var r := WithoutBlock(content, tool);
      if r.CorruptMarkers? {
        return false;
      }
      content := r.value;
      return true;
    }

    /** Whether the block is there; on corrupt markers an error, unless one end
        marker stands before one begin marker. */
    method HostsEnabled(tool: Tool) returns (r: Result<bool>)
      ensures r == EnabledAnswer(content, tool)
      ensures Remaining(Lines(content), tool).Ok? ==> r == Ok(!Unmarked(Lines(content), tool))
      ensures Remaining(Lines(content), tool).CorruptMarkers? ==>
                r == if EndFirst(Lines(content), tool) then Ok(true) else CorruptMarkers
    {
      hide Remaining, Unmarked, EndFirst;
      AnswerAgrees(content, tool);
      var lines := Lines(content);
      var starts, ends := CountOf(lines, Begin(tool)), CountOf(lines, End(tool));
      if starts > 1 || ends > 1 || starts != ends {
        return CorruptMarkers;
      }
      return Ok(starts == 1);
    }
  }

  // ------------------------------------------------ what a block looks like

  predicate Clean(line: string) { OneLine(line) && line != "" && !EndsInCr(line) }

  lemma AntigravityClean()
    ensures Clean("daily-cloudcode-pa.googleapis.com") && Clean("cloudcode-pa.googleapis.com")
  {
  }

  lemma CopilotCursorClean()
    ensures Clean("api.individual.githubcopilot.com") && Clean("api2.cursor.sh")
  {
  }

  lemma KiroClean()
    ensures Clean("runtime.us-east-1.kiro.dev") && Clean("q.us-east-1.amazonaws.com")
  {
  }

  lemma KiroLongNameClean()
    ensures Clean("codewhisperer.us-east-1.amazonaws.com")
  {
  }

  lemma HostsAreClean(tool: Tool)
    ensures forall i :: 0 <= i < |Hosts(tool)| ==> Clean(Hosts(tool)[i])
  {
    hide Clean;
    AntigravityClean();
    CopilotCursorClean();
    KiroClean();
    KiroLongNameClean();
  }

  lemma CleanConcat(a: string, b: string)
    requires OneLine(a) && Clean(b)
    ensures Clean(a + b)
  {
  }

  lemma MarkersAreClean(tool: Tool)
    ensures Clean(Begin(tool)) && Clean(End(tool))
    ensures Begin(tool)[0] == '#' && End(tool)[0] == '#'
  {
    assert Clean("antigravity") && Clean("copilot") && Clean("cursor") && Clean("kiro");
    assert OneLine(BEGIN) && OneLine(END) && BEGIN[0] == '#' && END[0] == '#';
    CleanConcat(BEGIN, Name(tool));
    CleanConcat(END, Name(tool));
  }

  lemma MarkersNameTools(t: Tool, u: Tool)
    requires t != u
    ensures Begin(t) != Begin(u) && End(t) != End(u) && Begin(t) != End(u)
  {
    assert Begin(t)[18] == 'b' && End(u)[18] == 'e';
    assert Begin(t)[24..] == Name(t) && Begin(u)[24..] == Name(u);
    assert End(t)[22..] == Name(t) && End(u)[22..] == Name(u);
    assert Name(t) != Name(u);
  }

  lemma {:induction false} HostLinesShape(hosts: seq<string>)
    requires forall i :: 0 <= i < |hosts| ==> Clean(hosts[i])
    ensures forall i :: 0 <= i < |HostLines(hosts)| ==>
                          Clean(HostLines(hosts)[i]) && HostLines(hosts)[i][0] == '1'
  {
    if hosts != [] {
      HostLinesShape(hosts[1..]);
      CleanConcat("127.0.0.1 ", hosts[0]);
    }
  }

  lemma BlockShape(tool: Tool)
    ensures |Block(tool)| >= 2 && Block(tool)[0] == Begin(tool) && Block(tool)[|Block(tool)| - 1] == End(tool)
    ensures forall i :: 0 < i < |Block(tool)| - 1 ==> Clean(Block(tool)[i]) && Block(tool)[i][0] == '1'
    ensures forall i :: 0 <= i < |Block(tool)| ==> Clean(Block(tool)[i])
  {
    HostsAreClean(tool);
    HostLinesShape(Hosts(tool));
    MarkersAreClean(tool);
  }

  lemma OwnBlock(tool: Tool)
    ensures BlockAt(Block(tool), tool, 0, |Block(tool)| - 1)
  {
    hide Begin, End, Block, Clean;
    BlockShape(tool);
    MarkersAreClean(tool);
    MarkersDiffer(tool);
  }

  lemma OtherBlock(tool: Tool, other: Tool)
    requires tool != other
    ensures Unmarked(Block(other), tool)
  {
    hide Begin, End, Block;
    BlockShape(other);
    MarkersAreClean(tool);
    MarkersNameTools(tool, other);
    MarkersNameTools(other, tool);
    var lines := Block(other);
    forall i | 0 <= i < |lines| ensures lines[i] != Begin(tool) && lines[i] != End(tool) {
      if 0 < i < |lines| - 1 {
        assert lines[i][0] == '1';
      }
    }
  }

  // ------------------------------------------------ base lines and blocks

  function Blocks(order: seq<Tool>): seq<string> {
    if order == [] then [] else Block(order[0]) + Blocks(order[1..])
  }

  predicate Distinct(order: seq<Tool>) {
    forall i, j :: 0 <= i < j < |order| ==> order[i] != order[j]
  }

  function Without(order: seq<Tool>, tool: Tool): (r: seq<Tool>)
    ensures forall t :: t in r <==> t in order && t != tool
  {
    if order == [] then []
    else if order[0] == tool then Without(order[1..], tool)
    else [order[0]] + Without(order[1..], tool)
  }

  lemma {:induction false} WithoutAbsent(order: seq<Tool>, tool: Tool)
    requires tool !in order
    ensures Without(order, tool) == order
  {
    if order != [] {
      WithoutAbsent(order[1..], tool);
    }
  }

  lemma {:induction false} BlocksUnmarked(order: seq<Tool>, tool: Tool)
    requires tool !in order
    ensures Unmarked(Blocks(order), tool)
  {
    if order != [] {
      OtherBlock(tool, order[0]);
      BlocksUnmarked(order[1..], tool);
    }
  }

  /** A block keeps its place between unmarked lines. */
  lemma BlockBetween(pre: seq<string>, block: seq<string>, post: seq<string>, tool: Tool)
    requires Unmarked(pre, tool) && Unmarked(post, tool) && |block| >= 2
    requires BlockAt(block, tool, 0, |block| - 1)
    ensures Remaining(pre + block + post, tool) == Ok(pre + post)
  {
    var lines := pre + block + post;
    var i, j := |pre|, |pre| + |block| - 1;
    hide Begin, End;
    forall k | 0 <= k < |lines|
      ensures (lines[k] == Begin(tool) ==> k == i) && (lines[k] == End(tool) ==> k == j)
    {
      if k < |pre| {
        assert lines[k] == pre[k];
      } else if k < |pre| + |block| {
        assert lines[k] == block[k - |pre|];
      } else {
        assert lines[k] == post[k - |pre| - |block|];
      }
    }
    assert lines[i] == block[0] && lines[j] == block[|block| - 1];
    RemainingOfBlock(lines, tool, i, j);
    assert lines[..i] == pre && lines[j + 1..] == post;
  }

  lemma {:induction false} RemoveBlock(base: seq<string>, order: seq<Tool>, tool: Tool)
    requires Unmarked(base, tool) && Distinct(order)
    ensures Remaining(base + Blocks(order), tool) == Ok(base + Blocks(Without(order, tool)))
    decreases |order|
  {
    hide Begin, End, Block, Remaining;
    if tool !in order {
      BlocksUnmarked(order, tool);
      WithoutAbsent(order, tool);
      RemainingUnmarked(base + Blocks(order), tool);
    } else {
      DistinctHead(order);
      var head, rest := Block(order[0]), order[1..];
      BlocksSplit(base, order);
      if order[0] == tool {
        BlocksUnmarked(rest, tool);
        WithoutAbsent(rest, tool);
        OwnBlock(tool);
        BlockBetween(base, head, Blocks(rest), tool);
      } else {
        OtherBlock(tool, order[0]);
        RemoveBlock(base + head, rest, tool);
        BlocksSplit(base, Without(order, tool));
      }
    }
  }

  lemma BlocksSplit(base: seq<string>, order: seq<Tool>)
    requires order != []
    ensures base + Blocks(order) == base + Block(order[0]) + Blocks(order[1..])
  {
  }

  lemma DistinctHead(order: seq<Tool>)
    requires order != [] && Distinct(order)
    ensures order[0] !in order[1..] && Distinct(order[1..])
  {
  }

  lemma {:induction false} WithoutDistinct(order: seq<Tool>, tool: Tool)
    requires Distinct(order)
    ensures Distinct(Without(order, tool))
  {
    if order != [] {
      DistinctHead(order);
      WithoutDistinct(order[1..], tool);
    }
  }

  lemma {:induction false} BlocksAppend(order: seq<Tool>, tool: Tool)
    ensures Blocks(order + [tool]) == Blocks(order) + Block(tool)
  {
    hide Block;
    if order == [] {
      assert order + [tool] == [tool] && [tool][1..] == [];
      assert Blocks([tool]) == Block(tool) + Blocks([]);
    } else {
      BlocksAppend(order[1..], tool);
      assert (order + [tool])[1..] == order[1..] + [tool];
    }
  }

  // ------------------------------------------------ counting markers

  lemma {:induction false} CountZero(lines: seq<string>, line: string)
    ensures CountOf(lines, line) == 0 <==> line !in lines
  {
    if lines != [] {
      CountZero(lines[1..], line);
      assert lines == [lines[0]] + lines[1..];
    }
  }

  predicate OnlyAt(lines: seq<string>, line: string, i: int) {
    0 <= i < |lines| && lines[i] == line && line !in lines[..i] && line !in lines[i + 1..]
  }

  lemma {:induction false} CountOne(lines: seq<string>, line: string, i: int)
    requires OnlyAt(lines, line, i)
    ensures CountOf(lines, line) == 1
  {
    if i == 0 {
      CountZero(lines[1..], line);
    } else {
      assert lines[..i][0] == lines[0];
      assert lines[1..][..i - 1] == lines[..i][1..] && lines[1..][i..] == lines[i + 1..];
      CountOne(lines[1..], line, i - 1);
    }
  }

  lemma {:induction false} PlaceOfOne(lines: seq<string>, line: string) returns (i: int)
    requires CountOf(lines, line) == 1
    ensures OnlyAt(lines, line, i)
  {
    if lines[0] == line {
      CountZero(lines[1..], line);
      i := 0;
    } else {
      var j := PlaceOfOne(lines[1..], line);
      i := j + 1;
      assert lines[..i] == [lines[0]] + lines[1..][..j];
      assert lines[i + 1..] == lines[1..][j + 1..];
    }
  }

  /** Each marker occurs once, the end marker first. */
  ghost predicate EndFirst(lines: seq<string>, tool: Tool) {
    exists i, j :: j < i && OnlyAt(lines, Begin(tool), i) && OnlyAt(lines, End(tool), j)
  }

  lemma BlockIsOnly(lines: seq<string>, tool: Tool, i: int, j: int)
    ensures BlockAt(lines, tool, i, j) <==> i < j && OnlyAt(lines, Begin(tool), i) && OnlyAt(lines, End(tool), j)
  {
    hide Begin, End;
    MarkersDiffer(tool);
    if i < j && OnlyAt(lines, Begin(tool), i) && OnlyAt(lines, End(tool), j) {
      forall k | 0 <= k < |lines|
        ensures (lines[k] == Begin(tool) ==> k == i) && (lines[k] == End(tool) ==> k == j)
      {
        assert k < i ==> lines[..i][k] == lines[k];
        assert k > i ==> lines[i + 1..][k - i - 1] == lines[k];
        assert k < j ==> lines[..j][k] == lines[k];
        assert k > j ==> lines[j + 1..][k - j - 1] == lines[k];
      }
    }
  }

  /** The query answers whether the block is there.  It counts markers without
      looking at their order, so it overlooks exactly one corruption: one end
      marker before one begin marker. */
  lemma AnswerAgrees(input: string, tool: Tool)
    ensures match Remaining(Lines(input), tool)
            case Ok(kept) => EnabledAnswer(input, tool) == Ok(!Unmarked(Lines(input), tool))
            case CorruptMarkers =>
              EnabledAnswer(input, tool) == if EndFirst(Lines(input), tool) then Ok(true) else CorruptMarkers
  {
    hide Begin, End, Lines;
    var lines := Lines(input);
    CountZero(lines, Begin(tool));
    CountZero(lines, End(tool));
    if Marked(lines, tool) {
      var i, j :| BlockAt(lines, tool, i, j);
      BlockIsOnly(lines, tool, i, j);
      CountOne(lines, Begin(tool), i);
      CountOne(lines, End(tool), j);
    } else if CountOf(lines, Begin(tool)) == 1 && CountOf(lines, End(tool)) == 1 {
      var i := PlaceOfOne(lines, Begin(tool));
      var j := PlaceOfOne(lines, End(tool));
      BlockIsOnly(lines, tool, i, j);
      MarkersDiffer(tool);
      assert !BlockAt(lines, tool, i, j);
    } else if EndFirst(lines, tool) {
      var i, j :| j < i && OnlyAt(lines, Begin(tool), i) && OnlyAt(lines, End(tool), j);
      CountOne(lines, Begin(tool), i);
      CountOne(lines, End(tool), j);
      assert false;
    }
  }

  /** A text that the query overlooks. */
  lemma EndFirstOverlooked(tool: Tool)
    ensures var input := End(tool) + "\n" + Begin(tool) + "\n";
            Remaining(Lines(input), tool).CorruptMarkers? && EnabledAnswer(input, tool) == Ok(true)
  {
    hide Begin, End, Lines;
    var lines := [End(tool), Begin(tool)];
    MarkersAreClean(tool);
    MarkersDiffer(tool);
    CleanLines(lines);
    assert lines[1..] == [Begin(tool)] && lines[1..][1..] == [];
    LinesTerminated(lines, "\n");
    assert Uncr(lines) == lines;
    TwoTerminated(End(tool), Begin(tool));
    assert OnlyAt(lines, End(tool), 0) && OnlyAt(lines, Begin(tool), 1);
    CountOne(lines, End(tool), 0);
    CountOne(lines, Begin(tool), 1);
    assert forall i, j :: !BlockAt(lines, tool, i, j);
  }

  lemma TwoTerminated(a: string, b: string)
    ensures Terminated([a, b], "\n") == a + "\n" + b + "\n"
  {
    TerminatedOne(b, "\n");
    assert [a, b][1..] == [b];
    Associative(a + "\n", b, "\n");
  }

  // ------------------------------------------------ written text

  predicate Newline(newline: string) { newline == "\n" || newline == "\r\n" }

  /** What is written reads back as the same lines with the same terminator. */
  lemma WrittenLines(lines: seq<string>, newline: string)
    requires AllOneLine(lines) && Newline(newline) && (newline == "\n" ==> NoCr(lines))
    ensures Lines(Terminated(lines, newline)) == lines
    ensures lines != [] ==> Eol(Terminated(lines, newline)) == newline
    ensures HasCrLf(Terminated(lines, newline)) || NoCr(lines)
  {
    hide Lines, HasCrLf, Terminated;
    LinesTerminated(lines, newline);
    CrLfOfTerminated(lines, newline);
    if NoCr(lines) {
      assert Uncr(lines) == lines;
    }
  }

  lemma RenderedIs(lines: seq<string>, newline: string)
    requires newline != ""
    ensures Rendered(lines, newline) == if lines == [""] then "" else Terminated(lines, newline)
  {
    JoinTerminated(lines, newline);
    if lines == [] {
    } else if lines != [""] {
      assert Join(lines, newline) != "";
    }
  }

  lemma CleanLines(lines: seq<string>)
    requires forall i :: 0 <= i < |lines| ==> Clean(lines[i])
    ensures AllOneLine(lines) && NoCr(lines)
  {
  }

  lemma BlockIsClean(tool: Tool)
    ensures AllOneLine(Block(tool)) && NoCr(Block(tool)) && |Block(tool)| >= 2
  {
    BlockShape(tool);
    CleanLines(Block(tool));
  }

  lemma {:induction false} BlocksAreClean(order: seq<Tool>)
    ensures AllOneLine(Blocks(order)) && NoCr(Blocks(order))
    ensures Blocks(order) == [] <==> order == []
  {
    hide Block;
    if order != [] {
      BlockIsClean(order[0]);
      BlocksAreClean(order[1..]);
      OneLineConcat(Block(order[0]), Blocks(order[1..]));
    }
  }

  lemma OneLineConcat(a: seq<string>, b: seq<string>)
    ensures AllOneLine(a + b) <==> AllOneLine(a) && AllOneLine(b)
    ensures NoCr(a + b) <==> NoCr(a) && NoCr(b)
  {
    forall i | 0 <= i < |a| ensures a[i] == (a + b)[i] {}
    forall i | 0 <= i < |b| ensures b[i] == (a + b)[|a| + i] {}
  }

  // ------------------------------------------------ runs

  datatype Op = Enable(tool: Tool) | Disable(tool: Tool)

  ghost function Applied(content: string, op: Op): Result<string> {
    match op
    case Enable(tool) => EnabledText(content, tool)
    case Disable(tool) => WithoutBlockText(content, tool)
  }

  /** A run of calls; a call on corrupt markers leaves the file alone, and is
      reported as the run's failure. */
  ghost function Run(content: string, ops: seq<Op>): Result<string>
    decreases |ops|
  {
    if ops == [] then Ok(content)
    else match Applied(content, ops[0])
         case CorruptMarkers => CorruptMarkers
         case Ok(next) => Run(next, ops[1..])
  }

  function Reordered(order: seq<Tool>, op: Op): seq<Tool> {
    match op
    case Enable(tool) => Without(order, tool) + [tool]
    case Disable(tool) => Without(order, tool)
  }

  /** The enabled tools in order of last enable. */
  function Order(order: seq<Tool>, ops: seq<Op>): seq<Tool>
    decreases |ops|
  {
    if ops == [] then order else Order(Reordered(order, ops[0]), ops[1..])
  }

  ghost predicate Base(base: seq<string>) {
    AllOneLine(base) && base != [""] && forall tool :: Unmarked(base, tool)
  }

  /** The text is the base lines and then the blocks of the enabled tools. */
  ghost predicate Holds(content: string, base: seq<string>, order: seq<Tool>) {
    Base(base) && Distinct(order)
    && Lines(content) == base + Blocks(order) && (HasCrLf(content) || NoCr(Lines(content)))
  }

  lemma WriteLines(lines: seq<string>, newline: string, content: string)
    requires AllOneLine(lines) && Newline(newline) && (newline == "\n" ==> NoCr(lines))
    requires content == Terminated(lines, newline)
    ensures Lines(content) == lines && (HasCrLf(content) || NoCr(lines))
  {
    WrittenLines(lines, newline);
  }

  lemma NotBlank(base: seq<string>, order: seq<Tool>)
    requires base != [""]
    ensures base + Blocks(order) != [""]
  {
    if order != [] {
      BlockShape(order[0]);
      hide Block, Clean;
      assert |Block(order[0])| >= 2;
    }
  }

  lemma NoCrWithout(base: seq<string>, order: seq<Tool>, tool: Tool)
    requires AllOneLine(base)
    ensures AllOneLine(base + Blocks(Without(order, tool)))
    ensures NoCr(base + Blocks(order)) ==> NoCr(base + Blocks(Without(order, tool)))
  {
    hide Blocks;
    BlocksAreClean(Without(order, tool));
    BlocksAreClean(order);
    OneLineConcat(base, Blocks(order));
    OneLineConcat(base, Blocks(Without(order, tool)));
  }

  lemma DisableStep(content: string, base: seq<string>, order: seq<Tool>, tool: Tool)
    requires Holds(content, base, order)
    ensures WithoutBlockText(content, tool) == Ok(Terminated(base + Blocks(Without(order, tool)), Eol(content)))
    ensures Holds(WithoutBlockText(content, tool).value, base, Without(order, tool))
  {
    hide Lines, HasCrLf, Terminated, Block, Blocks, Unmarked, Remaining;
    var kept := base + Blocks(Without(order, tool));
    RemoveBlock(base, order, tool);
    NotBlank(base, Without(order, tool));
    RenderedIs(kept, Eol(content));
    NoCrWithout(base, order, tool);
    WriteLines(kept, Eol(content), Terminated(kept, Eol(content)));
    WithoutDistinct(order, tool);
  }

  lemma EnableStep(content: string, base: seq<string>, order: seq<Tool>, tool: Tool)
    requires Holds(content, base, order)
    ensures EnabledText(content, tool).Ok?
    ensures Holds(EnabledText(content, tool).value, base, Without(order, tool) + [tool])
  {
    var kept := base + Blocks(Without(order, tool));
    DisableStep(content, base, order, tool);
    NoCrWithout(base, order, tool);
    hide Lines, HasCrLf, Block, Blocks, Base, Terminated, Eol, WithoutBlockText, Without;
    TerminatedConcat(kept, Block(tool), Eol(content));
    AppendedLines(content, kept, tool);
    AppendedBlock(base, order, tool);
  }

  lemma AppendedBlock(base: seq<string>, order: seq<Tool>, tool: Tool)
    requires Distinct(order)
    ensures Distinct(Without(order, tool) + [tool])
    ensures base + Blocks(Without(order, tool) + [tool]) == base + Blocks(Without(order, tool)) + Block(tool)
  {
    hide Block, Blocks;
    WithoutDistinct(order, tool);
    BlocksAppend(Without(order, tool), tool);
    var rest := Without(order, tool);
    forall i, j | 0 <= i < j < |rest + [tool]| ensures (rest + [tool])[i] != (rest + [tool])[j] {
      assert rest[i] in rest;
    }
  }

  lemma AppendedLines(content: string, kept: seq<string>, tool: Tool)
    requires AllOneLine(kept) && (HasCrLf(content) || NoCr(kept))
    ensures var text := Terminated(kept + Block(tool), Eol(content));
            Lines(text) == kept + Block(tool) && (HasCrLf(text) || NoCr(Lines(text)))
  {
    hide Lines, HasCrLf, Terminated, Block;
    BlockIsClean(tool);
    OneLineConcat(kept, Block(tool));
    WrittenLines(kept + Block(tool), Eol(content));
  }

  lemma AnswerStep(content: string, base: seq<string>, order: seq<Tool>, tool: Tool)
    requires Holds(content, base, order)
    ensures EnabledAnswer(content, tool) == Ok(tool in order)
  {
    hide Lines, HasCrLf, Block, Remaining, EnabledAnswer;
    AnswerAgrees(content, tool);
    RemoveBlock(base, order, tool);
    if tool in order {
      BlocksMarked(order, tool);
      var i :| 0 <= i < |Blocks(order)| && Blocks(order)[i] == Begin(tool);
      assert (base + Blocks(order))[|base| + i] == Begin(tool);
    } else {
      BlocksUnmarked(order, tool);
    }
  }

  lemma {:induction false} BlocksMarked(order: seq<Tool>, tool: Tool)
    requires tool in order
    ensures Begin(tool) in Blocks(order)
  {
    hide Block, Begin;
    if order[0] == tool {
      BlockShape(tool);
      assert Blocks(order)[0] == Begin(tool);
    } else {
      BlocksMarked(order[1..], tool);
    }
  }

  lemma {:induction false} RunHolds(content: string, base: seq<string>, order: seq<Tool>, ops: seq<Op>)
    requires Holds(content, base, order)
    ensures Run(content, ops).Ok?
    ensures Holds(Run(content, ops).value, base, Order(order, ops))
    decreases |ops|
  {
    hide Holds, EnabledText, WithoutBlockText;
    if ops != [] {
      match ops[0] {
        case Enable(tool) => EnableStep(content, base, order, tool);
        case Disable(tool) => DisableStep(content, base, order, tool);
      }
      RunHolds(Applied(content, ops[0]).value, base, Reordered(order, ops[0]), ops[1..]);
    }
  }

  // ------------------------------------------------ the main results

  lemma LinesStep(s: string)
    requires s != ""
    ensures var k := Find(s, '\n');
            Lines(s) == if k == |s| then [s] else [WithoutCr(s[..k])] + Lines(s[k + 1..])
  {
    hide Find, WithoutCr;
  }

  lemma {:induction false} LastLine(s: string)
    requires s != "" && !HasCrLf(s)
    ensures Lines(s) != []
    ensures EndsInCr(Lines(s)[|Lines(s)| - 1]) <==> EndsInCr(s)
  {
    hide *;
    LinesStep(s);
    var k := Find(s, '\n');
    if k < |s| {
      var rest := s[k + 1..];
      SplitAtLineFeed(s);
      CrLfLine(s[..k], rest);
      LinesAreLines(rest);
      if rest != "" {
        LastLine(rest);
        SameEnd(s, k + 1);
      } else {
        WithoutCrLine(s[..k]);
        FeedEnds(s);
      }
    }
  }

  lemma SameEnd(s: string, from: nat)
    requires from < |s|
    ensures EndsInCr(s[from..]) <==> EndsInCr(s)
  {
    assert s[from..][|s| - from - 1] == s[|s| - 1];
  }

  lemma FeedEnds(s: string)
    requires s != ""
    ensures s[|s| - 1] == '\n' ==> !EndsInCr(s)
  {
  }

  /** The one text whose lines the line terminators betray: no `\r\n` in it,
      and a last line, without terminator, that ends in `\r`. */
  predicate BareCr(s: string) { EndsInCr(s) && !HasCrLf(s) }

  lemma BareCrLines(s: string)
    ensures BareCr(s) <==> !HasCrLf(s) && !NoCr(Lines(s))
  {
    hide Lines, HasCrLf, EndsInCr;
    LinesAreLines(s);
    if s == "" {
      NothingEnds();
    } else if !HasCrLf(s) {
      LastLine(s);
      OnlyLast(Lines(s));
    }
  }

  lemma NothingEnds()
    ensures !EndsInCr("")
  {
  }

  lemma OnlyLast(lines: seq<string>)
    requires lines != [] && forall i :: 0 <= i < |lines| - 1 ==> !EndsInCr(lines[i])
    ensures NoCr(lines) <==> !EndsInCr(lines[|lines| - 1])
  {
    hide EndsInCr;
  }

  /** From a marker-free file that is not a single blank line and does not end
      in a bare `\r`, every run of calls succeeds; afterwards the lines are
      the original lines followed by the blocks of exactly the enabled tools
      in order of last enable, and the query answers membership. */
  lemma RunRefines(input: string, ops: seq<Op>, tool: Tool)
    requires forall t :: Unmarked(Lines(input), t)
    requires Lines(input) != [""] && !BareCr(input)
    ensures Run(input, ops).Ok?
    ensures Lines(Run(input, ops).value) == Lines(input) + Blocks(Order([], ops))
    ensures EnabledAnswer(Run(input, ops).value, tool) == Ok(tool in Order([], ops))
  {
    LinesAreLines(input);
    BareCrLines(input);
    assert Lines(input) == Lines(input) + Blocks([]);
    RunHolds(input, Lines(input), [], ops);
    AnswerStep(Run(input, ops).value, Lines(input), Order([], ops), tool);
  }

  /** ... and those two conditions are needed already for one call that has
      nothing to remove: it keeps the lines exactly then. */
  lemma KeepsLinesExactly(input: string, tool: Tool)
    requires Unmarked(Lines(input), tool)
    ensures WithoutBlockText(input, tool).Ok?
    ensures Lines(WithoutBlockText(input, tool).value) == Lines(input)
            <==> Lines(input) != [""] && !BareCr(input)
  {
    var lines := Lines(input);
    LinesAreLines(input);
    BareCrLines(input);
    RenderedIs(lines, Eol(input));
    LinesTerminated(lines, Eol(input));
    assert Lines("") == [];
    hide Lines, HasCrLf, Terminated, Rendered;
    if NoCr(lines) {
      assert Uncr(lines) == lines;
    } else {
      var i :| 0 <= i < |lines| && EndsInCr(lines[i]);
      assert |WithoutCr(lines[i])| < |lines[i]|;
      assert Uncr(lines)[i] == WithoutCr(lines[i]);
    }
  }

  // Enabling twice, and disabling what was enabled, on any text at all.

  ghost predicate KeptOf(input: string, tool: Tool, kept: seq<string>) {
    Remaining(Lines(input), tool) == Ok(kept)
  }

  lemma KeptShape(input: string, tool: Tool, kept: seq<string>)
    requires KeptOf(input, tool, kept)
    ensures AllOneLine(kept) && Unmarked(kept, tool)
    ensures BareCr(input) <==> Eol(input) == "\n" && !NoCr(kept)
    ensures BareCr(input) ==> forall i :: 0 <= i < |kept| - 1 ==> !EndsInCr(kept[i])
  {
    var lines := Lines(input);
    LinesAreLines(input);
    BareCrLines(input);
    hide Lines, HasCrLf, Begin, End, Remaining;
    if Unmarked(lines, tool) {
      RemainingUnmarked(lines, tool);
    } else {
      var i, j := KeptBlock(input, tool, kept);
      MarkersAreClean(tool);
      KeptAround(lines, kept, i, j, HasCrLf(input));
    }
  }

  lemma KeptBlock(input: string, tool: Tool, kept: seq<string>) returns (i: int, j: int)
    requires KeptOf(input, tool, kept) && !Unmarked(Lines(input), tool)
    ensures BlockAt(Lines(input), tool, i, j) && kept == Lines(input)[..i] + Lines(input)[j + 1..]
    ensures Unmarked(kept, tool)
  {
    hide Lines, Begin, End;
    var lines := Lines(input);
    i, j :| BlockAt(lines, tool, i, j);
    RemainingOfBlock(lines, tool, i, j);
  }

  lemma KeptAround(lines: seq<string>, kept: seq<string>, i: int, j: int, crLf: bool)
    requires 0 <= i < j < |lines| && kept == lines[..i] + lines[j + 1..]
    requires AllOneLine(lines) && !EndsInCr(lines[j])
    requires !crLf ==> forall k :: 0 <= k < |lines| - 1 ==> !EndsInCr(lines[k])
    ensures AllOneLine(kept)
    ensures !crLf ==> (NoCr(kept) <==> NoCr(lines))
    ensures !crLf ==> forall k :: 0 <= k < |kept| - 1 ==> !EndsInCr(kept[k])
  {
    forall k | 0 <= k < |kept| ensures kept[k] == lines[if k < i then k else k + j + 1 - i] {}
    if !crLf && NoCr(kept) {
      forall k | 0 <= k < |lines| ensures !EndsInCr(lines[k]) {
        if k == |lines| - 1 && k != j {
          assert lines[k] == kept[k - j - 1 + i];
        }
      }
    }
  }

  /** The text after enabling: the kept lines and the block, or the block
      alone when the kept lines were one blank line. */
  lemma EnabledShape(input: string, tool: Tool, kept: seq<string>)
    requires KeptOf(input, tool, kept)
    ensures var lines := if kept == [""] then [] else kept;
            EnabledText(input, tool) == Ok(Terminated(lines + Block(tool), Eol(input)))
            && WithoutBlockText(input, tool) == Ok(Terminated(lines, Eol(input)))
  {
    hide Lines, HasCrLf, Terminated, Block, Remaining, Rendered;
    var lines := if kept == [""] then [] else kept;
    RenderedIs(kept, Eol(input));
    TerminatedConcat(lines, Block(tool), Eol(input));
    TerminatedNone(Eol(input));
  }

  lemma TerminatedNone(newline: string)
    ensures Terminated([], newline) == ""
  {
  }

  /** Away from the bare `\r`, enabling leaves the kept lines in place. */
  lemma EnabledKept(input: string, tool: Tool, kept: seq<string>, enabled: string)
    requires KeptOf(input, tool, kept) && !BareCr(input) && EnabledText(input, tool) == Ok(enabled)
    ensures Eol(enabled) == Eol(input)
    ensures KeptOf(enabled, tool, if kept == [""] then [] else kept)
  {
    hide Lines, HasCrLf, Terminated, Block, Remaining, EnabledText, Unmarked;
    KeptShape(input, tool, kept);
    EnabledShape(input, tool, kept);
    var lines := if kept == [""] then [] else kept;
    AppendedLines(input, lines, tool);
    EolKept(input, lines, tool);
    assert Unmarked([], tool) by { UnmarkedNone(tool); }
    AppendedKept(lines, tool);
  }

  lemma UnmarkedNone(tool: Tool)
    ensures Unmarked([], tool)
  {
  }

  lemma AppendedKept(lines: seq<string>, tool: Tool)
    requires Unmarked(lines, tool)
    ensures Remaining(lines + Block(tool), tool) == Ok(lines)
  {
    hide Block, Remaining;
    BlockIsClean(tool);
    OwnBlock(tool);
    UnmarkedNone(tool);
    BlockBetween(lines, Block(tool), [], tool);
    assert lines + Block(tool) + [] == lines + Block(tool) && lines + [] == lines;
  }

  lemma EolKept(input: string, lines: seq<string>, tool: Tool)
    requires AllOneLine(lines) && (HasCrLf(input) || NoCr(lines))
    ensures Eol(Terminated(lines + Block(tool), Eol(input))) == Eol(input)
  {
    hide HasCrLf, Terminated, Block, Lines;
    BlockIsClean(tool);
    OneLineConcat(lines, Block(tool));
    WrittenLines(lines + Block(tool), Eol(input));
  }

  /** With the bare `\r`, the file gains a `\r\n` and changes its terminator. */
  lemma EnabledBare(input: string, tool: Tool, kept: seq<string>, enabled: string)
    requires KeptOf(input, tool, kept) && BareCr(input) && EnabledText(input, tool) == Ok(enabled)
    ensures Eol(enabled) == "\r\n"
    ensures Lines(enabled) == Uncr(kept) + Block(tool)
    ensures enabled == Terminated(kept + Block(tool), "\n")
  {
    hide HasCrLf, Terminated, Block, Remaining, EnabledText, Unmarked, Lines;
    KeptShape(input, tool, kept);
    EnabledShape(input, tool, kept);
    assert kept != [""];
    BlockIsClean(tool);
    OneLineConcat(kept, Block(tool));
    LinesTerminated(kept + Block(tool), "\n");
    CrLfOfTerminated(kept + Block(tool), "\n");
    UncrConcat(kept, Block(tool));
    assert Uncr(Block(tool)) == Block(tool);
  }

  lemma UncrConcat(a: seq<string>, b: seq<string>)
    ensures Uncr(a + b) == Uncr(a) + Uncr(b)
  {
  }

  lemma LastTerminator(lines: seq<string>, last: string, newline: string)
    requires Newline(newline) && Clean(last)
    ensures var s := Terminated(lines + [last], newline);
            |s| >= 2 && (s[|s| - 2] == '\r' <==> newline == "\r\n")
  {
    hide Terminated;
    TerminatedConcat(lines, [last], newline);
    TerminatedOne(last, newline);
  }

  lemma BlockLast(lines: seq<string>, tool: Tool, newline: string)
    requires Newline(newline)
    ensures var s := Terminated(lines + Block(tool), newline);
            |s| >= 2 && (s[|s| - 2] == '\r' <==> newline == "\r\n")
  {
    hide Block, Terminated;
    BlockShape(tool);
    var last := |Block(tool)| - 1;
    assert lines + Block(tool) == lines + Block(tool)[..last] + [Block(tool)[last]];
    LastTerminator(lines + Block(tool)[..last], Block(tool)[last], newline);
  }

  /** Enabling twice is enabling once, exactly when the text does not end in
      the bare `\r`. */
  lemma EnableIdempotent(input: string, tool: Tool, enabled: string)
    requires EnabledText(input, tool) == Ok(enabled)
    ensures EnabledText(enabled, tool) == Ok(enabled) <==> !BareCr(input)
  {
    hide Lines, HasCrLf, Terminated, Block, Remaining, EnabledText, BareCr;
    var kept := KeptLines(input, tool);
    if !BareCr(input) {
      EnabledKept(input, tool, kept, enabled);
      EnabledShape(input, tool, kept);
      EnabledShape(enabled, tool, if kept == [""] then [] else kept);
    } else {
      EnabledBare(input, tool, kept, enabled);
      BlockLast(kept, tool, "\n");
      if EnabledText(enabled, tool).Ok? {
        var again := KeptLines(enabled, tool);
        EnabledShape(enabled, tool, again);
        BlockLast(if again == [""] then [] else again, tool, "\r\n");
      }
    }
  }

  lemma KeptLines(input: string, tool: Tool) returns (kept: seq<string>)
    requires EnabledText(input, tool).Ok?
    ensures KeptOf(input, tool, kept)
  {
    kept := Remaining(Lines(input), tool).value;
  }

  // Disabling after enabling, on a text that ends in the bare `\r`.

  function Sum(lines: seq<string>): nat {
    if lines == [] then 0 else |lines[0]| + Sum(lines[1..])
  }

  lemma {:induction false} TerminatedLength(lines: seq<string>, newline: string)
    ensures |Terminated(lines, newline)| == Sum(lines) + |lines| * |newline|
  {
    if lines != [] {
      TerminatedLength(lines[1..], newline);
      assert |lines| * |newline| == (|lines| - 1) * |newline| + |newline|;
    }
  }

  lemma {:induction false} SumUncr(lines: seq<string>)
    requires lines != [] && EndsInCr(lines[|lines| - 1])
    requires forall i :: 0 <= i < |lines| - 1 ==> !EndsInCr(lines[i])
    ensures Sum(Uncr(lines)) == Sum(lines) - 1
  {
    if |lines| > 1 {
      SumUncr(lines[1..]);
    }
  }

  /** The kept lines are one, and it is neither blank nor a marker without its
      `\r`. */
  predicate Sole(kept: seq<string>, tool: Tool) {
    |kept| == 1 && WithoutCr(kept[0]) != "" && WithoutCr(kept[0]) != Begin(tool) && WithoutCr(kept[0]) != End(tool)
  }

  lemma MarkedTwice(lines: seq<string>, tool: Tool)
    requires !Unmarked(lines, tool)
    ensures Remaining(lines + Block(tool), tool).CorruptMarkers?
  {
    hide Begin, End, HostLines, Hosts;
    var all, n := lines + Block(tool), |Block(tool)|;
    var k :| 0 <= k < |lines| && (lines[k] == Begin(tool) || lines[k] == End(tool));
    assert all[k] == lines[k] && all[|lines|] == Begin(tool) && all[|lines| + n - 1] == End(tool);
    assert !Unmarked(all, tool);
    forall i, j ensures !BlockAt(all, tool, i, j) {
      MarkersDiffer(tool);
    }
  }

  lemma LastBare(kept: seq<string>)
    requires !NoCr(kept) && forall i :: 0 <= i < |kept| - 1 ==> !EndsInCr(kept[i])
    ensures kept != [] && EndsInCr(kept[|kept| - 1])
  {
  }

  lemma OneOfOne(kept: seq<string>)
    requires |kept| == 1 && EndsInCr(kept[0])
    ensures Uncr(kept) == [WithoutCr(kept[0])]
    ensures Terminated(kept, "\n") == Terminated([WithoutCr(kept[0])], "\r\n")
  {
    var line := WithoutCr(kept[0]);
    assert kept == [kept[0]];
    TerminatedOne(kept[0], "\n");
    TerminatedOne(line, "\r\n");
    assert kept[0] == line + "\r";
    assert line + "\r" + "\n" == line + ("\r" + "\n");
  }

  lemma SoleUnmarked(kept: seq<string>, tool: Tool)
    requires |kept| == 1
    ensures Unmarked(Uncr(kept), tool) && Uncr(kept) != [""] <==> Sole(kept, tool)
  {
    hide Begin, End, Uncr, WithoutCr;
    var line := WithoutCr(kept[0]);
    assert Uncr(kept) == [line];
    assert forall marker :: marker in [line] <==> marker == line;
  }

  /** What disabling leaves after enabling. */
  lemma BareDisabled(input: string, tool: Tool, kept: seq<string>, enabled: string)
    requires KeptOf(input, tool, kept) && BareCr(input) && EnabledText(input, tool) == Ok(enabled)
    ensures WithoutBlockText(enabled, tool)
         == if !Unmarked(Uncr(kept), tool) then CorruptMarkers
            else Ok(if Uncr(kept) == [""] then "" else Terminated(Uncr(kept), "\r\n"))
  {
    hide HasCrLf, Terminated, Block, Remaining, EnabledText, Unmarked, Lines, Rendered, BareCr;
    EnabledBare(input, tool, kept, enabled);
    if Unmarked(Uncr(kept), tool) {
      AppendedKept(Uncr(kept), tool);
      RenderedIs(Uncr(kept), "\r\n");
    } else {
      MarkedTwice(Uncr(kept), tool);
    }
  }

  /** Disabling after enabling is disabling alone, exactly when the text does
      not end in the bare `\r` or that line is the only one kept, and neither
      blank nor a marker but for its `\r`. */
  lemma DisableUndoesEnable(input: string, tool: Tool, enabled: string)
    requires EnabledText(input, tool) == Ok(enabled)
    ensures WithoutBlockText(enabled, tool) == WithoutBlockText(input, tool)
            <==> !BareCr(input) || Sole(Remaining(Lines(input), tool).value, tool)
  {
    hide Lines, HasCrLf, Terminated, Block, Remaining, EnabledText, WithoutBlockText, BareCr, Unmarked, Sole, Uncr;
    var kept := KeptLines(input, tool);
    EnabledShape(input, tool, kept);
    if !BareCr(input) {
      EnabledKept(input, tool, kept, enabled);
      EnabledShape(enabled, tool, if kept == [""] then [] else kept);
    } else {
      BareKept(input, tool, kept);
      BareDisabled(input, tool, kept, enabled);
      TerminatedLength(kept, "\n");
      TerminatedLength(Uncr(kept), "\r\n");
      SumUncr(kept);
      if |kept| == 1 {
        SoleUnmarked(kept, tool);
        OneOfOne(kept);
      } else {
        NotSole(kept, tool);
      }
    }
  }

  lemma NotSole(kept: seq<string>, tool: Tool)
    requires |kept| != 1
    ensures !Sole(kept, tool) && Uncr(kept) != [""]
  {
  }

  lemma BareKept(input: string, tool: Tool, kept: seq<string>)
    requires KeptOf(input, tool, kept) && BareCr(input)
    ensures Eol(input) == "\n" && kept != [] && kept != [""] && EndsInCr(kept[|kept| - 1])
    ensures forall i :: 0 <= i < |kept| - 1 ==> !EndsInCr(kept[i])
  {
    hide Lines, HasCrLf, Remaining, Unmarked, BareCr;
    KeptShape(input, tool, kept);
    LastBare(kept);
  }
}
