/** The scaffold's write block: three new files, one line added to the init script, and rollback. */
module Scaffold {
  import opened Sequences

  type Path = string

  // ---- the init script -----------------------------------------------------------------------

  /** Index of the first newline, or the length. */
  function FirstNewline(s: string): (i: nat)
    ensures i <= |s|
    ensures forall k :: 0 <= k < i ==> s[k] != '\n'
    ensures i < |s| ==> s[i] == '\n'
  {
    if s == "" || s[0] == '\n' then 0 else 1 + FirstNewline(s[1..])
  }

  /** The lines of a text; a final newline does not start another line. */
  function Lines(s: string): seq<string>
    decreases |s|
  {
    var i := FirstNewline(s);
    if s == "" then [] else if i == |s| then [s] else [s[..i]] + Lines(s[i + 1..])
  }

  function Nonblank(lines: seq<string>): seq<string> {
    if lines == [] then [] else (if lines[0] == "" then [] else [lines[0]]) + Nonblank(lines[1..])
  }

  /** The lines of a text that are not empty, in order. */
  function Content(s: string): seq<string> { Nonblank(Lines(s)) }

  function StripNewlines(s: string): string {
    if s != "" && s[|s| - 1] == '\n' then StripNewlines(s[..|s| - 1]) else s
  }

  /** The init script with one more line at its end. */
  function WithLine(original: string, line: string): string {
    StripNewlines(original) + "\n" + line + "\n"
  }

  lemma SingleLine(a: string)
    requires FirstNewline(a) == |a|
    ensures Content(a) == if a == "" then [] else [a]
  {
    if a != "" {
      assert Lines(a) == [a];
      assert [a][1..] == [] && Nonblank([]) == [];
    }
  }

  /** A line, its newline, and more text. */
  lemma FirstLine(a: string, b: string)
    requires FirstNewline(a) == |a|
    ensures Content(a + "\n" + b) == Content(a) + Content(b)
  {
    var s, i := a + "\n" + b, |a|;
    NewlineAt(s, i);
    SingleLine(a);
    assert s[..i] == a && s[i + 1..] == b;
    hide FirstNewline;
    assert Lines(s) == [a] + Lines(b);
    hide Lines;
    assert ([a] + Lines(b))[1..] == Lines(b);
  }

  lemma Rejoin(a: string, rest: string, b: string)
    ensures a + "\n" + rest + "\n" + b == a + "\n" + (rest + "\n" + b)
  {
  }

  lemma {:induction false} ContentJoin(a: string, b: string)
    ensures Content(a + "\n" + b) == Content(a) + Content(b)
    decreases |a|
  {
    hide Content;
    var i := FirstNewline(a);
    if i == |a| {
      FirstLine(a, b);
    } else {
      var line, rest := a[..i], a[i + 1..];
      assert a == line + "\n" + rest;
      LineAlone(a, i);
      hide FirstNewline;
      FirstLine(line, rest);
      ContentJoin(rest, b);
      Rejoin(line, rest, b);
      FirstLine(line, rest + "\n" + b);
    }
  }

  lemma {:induction false} LineAlone(a: string, i: nat)
    requires i <= |a| && forall k :: 0 <= k < i ==> a[k] != '\n'
    ensures FirstNewline(a[..i]) == i
  {
    assert forall k :: 0 <= k < i ==> a[..i][k] != '\n';
  }

  lemma {:induction false} NewlineAt(s: string, i: nat)
    requires i < |s| && s[i] == '\n' && forall k :: 0 <= k < i ==> s[k] != '\n'
    ensures FirstNewline(s) == i
    decreases i
  {
    if i > 0 { NewlineAt(s[1..], i - 1); }
  }

  lemma {:induction false} StripKeepsContent(s: string)
    ensures Content(StripNewlines(s)) == Content(s)
    decreases |s|
  {
    if s != "" && s[|s| - 1] == '\n' {
      var m := |s| - 1;
      StripKeepsContent(s[..m]);
      assert s == s[..m] + "\n" + "";
      ContentJoin(s[..m], "");
      assert Content("") == [];
    }
  }

  /** The text without the newlines at its end. */
  ghost predicate Stripped(text: string, body: string) {
    && body <= text
    && (body != "" ==> body[|body| - 1] != '\n')
    && forall k :: |body| <= k < |text| ==> text[k] == '\n'
  }

  lemma {:induction false} StripStrips(s: string)
    ensures Stripped(s, StripNewlines(s))
    decreases |s|
  {
    if s != "" && s[|s| - 1] == '\n' { StripStrips(s[..|s| - 1]); }
  }

  /** Exactly one line is added, after all the lines that were there; only newlines at the end are dropped. */
  lemma OneLineAdded(original: string, line: string)
    requires line != "" && '\n' !in line
    ensures Content(WithLine(original, line)) == Content(original) + [line]
    ensures exists body :: Stripped(original, body) && WithLine(original, line) == body + "\n" + line + "\n"
  {
    var body := StripNewlines(original);
    StripStrips(original);
    hide StripNewlines, Stripped;
    assert WithLine(original, line) == body + "\n" + (line + "\n");
    ContentJoin(body, line + "\n");
    StripKeepsContent(original);
    assert line + "\n" == line + "\n" + "";
    ContentJoin(line, "");
    assert Content("") == [];
    assert FirstNewline(line) == |line|;
    SingleLine(line);
  }

  /** A non-empty line is listed exactly when it is among the non-blank ones. */
  lemma {:induction false} NonblankKeeps(lines: seq<string>, line: string)
    requires line != ""
    ensures line in lines <==> line in Nonblank(lines)
    decreases |lines|
  {
    if lines != [] {
      NonblankKeeps(lines[1..], line);
      assert lines == [lines[0]] + lines[1..];
    }
  }

  // ---- writing ---------------------------------------------------------------------------------

  /** The four paths and what is to be written. */
  datatype Job = Job(
    strategy: Path, registration: Path, test: Path, init: Path,
    strategyText: string, registrationText: string, testText: string, line: string)

  predicate DistinctPaths(job: Job) {
    && job.strategy != job.registration && job.strategy != job.test && job.strategy != job.init
    && job.registration != job.test && job.registration != job.init && job.test != job.init
  }

  /** None of the three new files exists yet. */
  predicate NoneThere(files: map<Path, string>, job: Job) {
    job.strategy !in files && job.registration !in files && job.test !in files
  }

  datatype Step = WriteStrategy | BuildStatement | WriteRegistration | WriteTest | WriteInit

  /** What goes wrong, if anything. A write that fails can still have left a part of the text behind. */
  datatype Trouble = Smooth | Fails(at: Step, left: Option<string>)

  datatype Outcome = Written | AlreadyThere | InitMissing | LineThere | RolledBack

  class Files {
    var content: map<Path, string>

    constructor (content: map<Path, string>)
      ensures this.content == content
    {
      this.content := content;
    }

    /** False stands for the exception that the write raises. */
    method Write(path: Path, text: string, step: Step, trouble: Trouble) returns (ok: bool)
      modifies this
      ensures ok <==> !(trouble.Fails? && trouble.at == step)
      ensures ok ==> content == old(content)[path := text]
      ensures !ok ==> content == if trouble.left.Some? then old(content)[path := trouble.left.value] else old(content)
    {
      if trouble.Fails? && trouble.at == step {
        if trouble.left.Some? {
          content := content[path := trouble.left.value];
        }
        return false;
      }
      content := content[path := text];
      ok := true;
    }

    /** The write block: `written` lists the files to remove again when a later step fails. */
    method WriteAll(job: Job, originalInit: string, trouble: Trouble) returns (ok: bool, written: seq<Path>)
      requires DistinctPaths(job)
      modifies this
      ensures ok <==> trouble.Smooth?
      ensures ok ==> content == AllWritten(old(content), job, originalInit)
      ensures !ok ==> content == LeftBy(old(content), job, trouble) && written == WrittenBefore(job, trouble.at)
    {
      written := [];
      ok := Write(job.strategy, job.strategyText, WriteStrategy, trouble);
      if !ok { return; }
      written := written + [job.strategy];
      if trouble.Fails? && trouble.at == BuildStatement {
        return false, written;
      }
      ok := Write(job.registration, job.registrationText, WriteRegistration, trouble);
      if !ok { return; }
      written := written + [job.registration];
      ok := Write(job.test, job.testText, WriteTest, trouble);
      if !ok { return; }
      written := written + [job.test];
      ok := Write(job.init, WithLine(originalInit, job.line), WriteInit, trouble);
    }

    /** The handler: remove what was written, restore the init script. */
    method RollBack(written: seq<Path>, init: Path, originalInit: string)
      modifies this
      ensures content == (old(content) - (set p | p in written))[init := originalInit]
    {
      for i := 0 to |written|
        invariant content == old(content) - (set p | p in written[..i])
      {
        assert written[..i + 1] == written[..i] + [written[i]];
        content := content - {written[i]};
      }
      assert written[..|written|] == written;
      content := content[init := originalInit];
    }

    /** Refuses to overwrite; otherwise all four changes happen, or the block is rolled back. */
    method Scaffold(job: Job, trouble: Trouble) returns (r: Outcome)
      requires DistinctPaths(job) && job.line != "" && '\n' !in job.line
      modifies this
      ensures r == AlreadyThere <==>
                job.strategy in old(content) || job.test in old(content) || job.registration in old(content)
      ensures r in {AlreadyThere, InitMissing, LineThere} ==> content == old(content)
      ensures r == InitMissing <==> NoneThere(old(content), job) && job.init !in old(content)
      ensures r == LineThere <==>
                && NoneThere(old(content), job) && job.init in old(content)
                && job.line in Content(old(content)[job.init])
      ensures NoneThere(old(content), job) && job.init in old(content)
              && job.line !in Content(old(content)[job.init]) ==>
                r == if trouble.Smooth? then Written else RolledBack
      ensures r == Written ==>
                && job.init in old(content) && job.line !in Content(old(content)[job.init])
                && content == AllWritten(old(content), job, old(content)[job.init])
                && Content(content[job.init]) == Content(old(content)[job.init]) + [job.line]
      ensures r == RolledBack ==> (content == old(content) <==> !LeavesPart(trouble))
    {
      if job.strategy in content || job.test in content || job.registration in content {
        return AlreadyThere;
      }
      if job.init !in content {
        return InitMissing;
      }
      var originalInit := content[job.init];
      NonblankKeeps(Lines(originalInit), job.line);
      if job.line in Lines(originalInit) {
        return LineThere;
      }
      OneLineAdded(originalInit, job.line);
      ghost var before := content;
      var ok, written := WriteAll(job, originalInit, trouble);
      if ok {
        return Written;
      }
      RollBack(written, job.init, originalInit);
      Restored(before, job, trouble);
      r := RolledBack;
    }
  }

  // ---- what the block leaves behind ----------------------------------------------------------------

  /** Three new files and the extended init script. */
  ghost function AllWritten(files: map<Path, string>, job: Job, originalInit: string): map<Path, string> {
    files[job.strategy := job.strategyText][job.registration := job.registrationText]
         [job.test := job.testText][job.init := WithLine(originalInit, job.line)]
  }

  function WrittenBefore(job: Job, step: Step): seq<Path> {
    match step
    case WriteStrategy => []
    case BuildStatement => [job.strategy]
    case WriteRegistration => [job.strategy]
    case WriteTest => [job.strategy, job.registration]
    case WriteInit => [job.strategy, job.registration, job.test]
  }

  function PathOf(job: Job, step: Step): Path {
    match step
    case WriteStrategy => job.strategy
    case BuildStatement => job.strategy
    case WriteRegistration => job.registration
    case WriteTest => job.test
    case WriteInit => job.init
  }

  /** The files at the moment the exception is raised. */
  ghost function LeftBy(files: map<Path, string>, job: Job, trouble: Trouble): map<Path, string>
    requires trouble.Fails?
  {
    var a := if trouble.at == WriteStrategy then files else files[job.strategy := job.strategyText];
    var b := if trouble.at in {WriteTest, WriteInit} then a[job.registration := job.registrationText] else a;
    var c := if trouble.at == WriteInit then b[job.test := job.testText] else b;
    if trouble.left.Some? && trouble.at != BuildStatement then c[PathOf(job, trouble.at) := trouble.left.value] else c
  }

  /** The failing write of a new file left a part of it; such a file is not on the list to remove. */
  predicate LeavesPart(trouble: Trouble) {
    trouble.Fails? && trouble.left.Some? && trouble.at in {WriteStrategy, WriteRegistration, WriteTest}
  }

  /** Rollback restores every file exactly when the failing write left nothing of a new file behind. */
  lemma Restored(files: map<Path, string>, job: Job, trouble: Trouble)
    requires DistinctPaths(job) && trouble.Fails?
    requires NoneThere(files, job) && job.init in files
    ensures var after := (LeftBy(files, job, trouble) - (set p | p in WrittenBefore(job, trouble.at)))
                         [job.init := files[job.init]];
            && (after == files <==> !LeavesPart(trouble))
            && (LeavesPart(trouble) ==> after == files[PathOf(job, trouble.at) := trouble.left.value])
  {
    var after := (LeftBy(files, job, trouble) - (set p | p in WrittenBefore(job, trouble.at)))
                 [job.init := files[job.init]];
    if LeavesPart(trouble) {
      assert after == files[PathOf(job, trouble.at) := trouble.left.value];
      assert PathOf(job, trouble.at) in after && PathOf(job, trouble.at) !in files;
    } else {
      assert after == files;
    }
  }
}
