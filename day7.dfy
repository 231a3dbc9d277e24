/** Day 7: a terminal session of `cd` and `ls` commands is replayed against a
    stack of directory names; the files each `ls` lists are recorded under the
    '/'-joined stack, and every directory's total is the sum of the files
    recorded at or below it. */
module Day7 {
  import opened Wrappers
  import Parsing
  import Text

  /** A line of `ls` output: a file with its size, or a subdirectory. */
  datatype Listed = FileLine(size: nat, name: string) | DirLine(name: string)

  datatype Cd = Root | Up | Down(name: string)

  datatype Operation = ChangeDir(target: Cd) | Ls(listing: seq<Listed>)

  /** A file as recorded under its directory's path. */
  datatype File = File(size: nat, name: string)

  // ---------------------------------------------------------------------------
  // Grammar: `file`, `directory`, `ls`, `cd`, `commands`.

  /** The characters of `is_a("qwertyuiopasdfghjklzxcvbnm.")`. */
  predicate IsNameChar(c: char) {
    'a' <= c <= 'z' || c == '.'
  }

  /** `file`: a size, one space, then a file name. */
  function ParseFile(s: string): (r: Option<(Listed, string)>)
    ensures r.Some? ==> |r.value.1| < |s|
  {
    match Parsing.ParseNat(s)
    case None => None
    case Some((size, rest)) =>
      match Parsing.Tag(rest, " ")
      case None => None
      case Some(rest') =>
        match Parsing.TakeWhile1(rest', IsNameChar)
        case None => None
        case Some((name, rest'')) => Some((FileLine(size, name), rest''))
  }

  /** `directory`: "dir " then an alphabetic name. */
  function ParseDirectory(s: string): (r: Option<(Listed, string)>)
    ensures r.Some? ==> |r.value.1| < |s|
  {
    match Parsing.Tag(s, "dir ")
    case None => None
    case Some(rest) =>
      match Parsing.TakeWhile1(rest, Parsing.IsAlpha)
      case None => None
      case Some((name, rest')) => Some((DirLine(name), rest'))
  }

  /** `alt((file, directory))`. */
  function ParseEntry(s: string): (r: Option<(Listed, string)>)
    ensures r.Some? ==> |r.value.1| < |s|
  {
    match ParseFile(s)
    case Some(x) => Some(x)
    case None => ParseDirectory(s)
  }

  /** `separated_list1(newline, alt((file, directory)))`. */
  function ParseEntries(s: string): (r: Option<(seq<Listed>, string)>)
    ensures r.Some? ==> |r.value.1| < |s|
  {
    match ParseEntry(s)
    case None => None
    case Some((e, rest)) =>
      var more := MoreEntries(rest);
      Some(([e] + more.0, more.1))
  }

  /** The entries after the first: each behind a '\n'; stops before a '\n' that is
      not followed by an entry. */
  function MoreEntries(t: string): (r: (seq<Listed>, string))
    ensures |r.1| <= |t|
    decreases |t|
  {
    if t != [] && t[0] == '\n' then
      match ParseEntry(t[1..])
      case None => ([], t)
      case Some((e, rest)) =>
        var more := MoreEntries(rest);
        ([e] + more.0, more.1)
    else ([], t)
  }

  /** `ls`: "$ ls", a newline, then at least one entry. */
  function ParseLs(s: string): (r: Option<(Operation, string)>)
    ensures r.Some? ==> |r.value.1| < |s|
  {
    match Parsing.Tag(s, "$ ls")
    case None => None
    case Some(rest) =>
      if rest != [] && rest[0] == '\n' then
        match ParseEntries(rest[1..])
        case None => None
        case Some((entries, rest')) => Some((Ls(entries), rest'))
      else None
  }

  /** `alt((tag(".."), alpha1, tag("/")))`: the argument of `cd`. */
  function CdTarget(s: string): (r: Option<(string, string)>)
    ensures r.Some? ==> r.value.0 + r.value.1 == s && r.value.0 != []
  {
    match Parsing.Tag(s, "..")
    case Some(rest) => Some(("..", rest))
    case None =>
      match Parsing.TakeWhile1(s, Parsing.IsAlpha)
      case Some(x) => Some(x)
      case None =>
        match Parsing.Tag(s, "/")
        case Some(rest) => Some(("/", rest))
        case None => None
  }

  /** The match on the argument: ".." goes up, "/" to the root, a name down. */
  function Classify(dir: string): Cd {
    if dir == ".." then Up else if dir == "/" then Root else Down(dir)
  }

  /** `cd`: "$ cd " and a target. */
  function ParseCd(s: string): (r: Option<(Operation, string)>)
    ensures r.Some? ==> |r.value.1| < |s|
  {
    match Parsing.Tag(s, "$ cd ")
    case None => None
    case Some(rest) =>
      match CdTarget(rest)
      case None => None
      case Some((dir, rest')) => Some((ChangeDir(Classify(dir)), rest'))
  }

  /** `alt((ls, cd))`. */
  function ParseOperation(s: string): (r: Option<(Operation, string)>)
    ensures r.Some? ==> |r.value.1| < |s|
  {
    match ParseLs(s)
    case Some(x) => Some(x)
    case None => ParseCd(s)
  }

  /** `commands`: `separated_list1(newline, alt((ls, cd)))`. */
  function ParseCommands(s: string): (r: Option<(seq<Operation>, string)>)
    ensures r.Some? ==> |r.value.0| >= 1
  {
    match ParseOperation(s)
    case None => None
    case Some((op, rest)) =>
      var more := MoreCommands(rest);
      Some(([op] + more.0, more.1))
  }

  function MoreCommands(t: string): (r: (seq<Operation>, string))
    decreases |t|
  {
    if t != [] && t[0] == '\n' then
      match ParseOperation(t[1..])
      case None => ([], t)
      case Some((op, rest)) =>
        var more := MoreCommands(rest);
        ([op] + more.0, more.1)
    else ([], t)
  }

  /** The `cd` argument is read whole and classified: ".." is Up, "/" is Root and an
      alphabetic name is Down(name); whatever follows is left unread. */
  lemma CdClassified(target: string, rest: string)
    requires target == ".." || target == "/" || IsAlphaWord(target)
    requires rest == [] || !Parsing.IsAlpha(rest[0])
    ensures ParseCd("$ cd " + target + rest)
            == Some((ChangeDir(if target == ".." then Up else if target == "/" then Root
                               else Down(target)), rest))
  {
    var s := "$ cd " + target + rest;
    var t := target + rest;
    assert s == "$ cd " + t;
    assert s[..5] == "$ cd " && s[5..] == t;
    if target == ".." {
      assert t[2..] == rest;
    } else if target == "/" {
      assert t[0] == '/';
      assert !(".." <= t) && !Parsing.IsAlpha(t[0]);
      assert t[1..] == rest;
    } else {
      assert t[0] == target[0] && Parsing.IsAlpha(target[0]);
      assert !(".." <= t);
      Parsing.TakeWhile1Of(target, rest, Parsing.IsAlpha);
    }
  }

  // ---------------------------------------------------------------------------
  // Printing a session, and reading it back.

  predicate IsAlphaWord(w: string) {
    w != [] && forall i :: 0 <= i < |w| ==> Parsing.IsAlpha(w[i])
  }

  predicate IsFileName(w: string) {
    w != [] && forall i :: 0 <= i < |w| ==> IsNameChar(w[i])
  }

  /** The lines that the grammar can read back. */
  predicate ValidEntry(e: Listed) {
    match e
    case FileLine(_, name) => IsFileName(name)
    case DirLine(name) => IsAlphaWord(name)
  }

  predicate ValidOperation(op: Operation) {
    match op
    case ChangeDir(Down(name)) => IsAlphaWord(name)
    case ChangeDir(_) => true
    case Ls(entries) => entries != [] && forall i :: 0 <= i < |entries| ==> ValidEntry(entries[i])
  }

  function ShowEntry(e: Listed): string {
    match e
    case FileLine(size, name) => Parsing.Show(size) + " " + name
    case DirLine(name) => "dir " + name
  }

  /** The entries one per line. */
  function ShowEntries(es: seq<Listed>): string
    requires es != []
  {
    ShowEntry(es[0]) + EntryGaps(es)
  }

  function EntryGaps(es: seq<Listed>): string
    requires es != []
  {
    if |es| == 1 then [] else "\n" + (ShowEntry(es[1]) + EntryGaps(es[1..]))
  }

  function ShowOperation(op: Operation): string
    requires ValidOperation(op)
  {
    match op
    case ChangeDir(Root) => "$ cd /"
    case ChangeDir(Up) => "$ cd .."
    case ChangeDir(Down(name)) => "$ cd " + name
    case Ls(entries) => "$ ls\n" + ShowEntries(entries)
  }

  /** The operations one per line. */
  function ShowCommands(ops: seq<Operation>): string
    requires ops != [] && forall i :: 0 <= i < |ops| ==> ValidOperation(ops[i])
  {
    ShowOperation(ops[0]) + OpGaps(ops)
  }

  function OpGaps(ops: seq<Operation>): string
    requires ops != [] && forall i :: 0 <= i < |ops| ==> ValidOperation(ops[i])
  {
    if |ops| == 1 then [] else "\n" + (ShowOperation(ops[1]) + OpGaps(ops[1..]))
  }

  /** What may follow a name without being read as part of it. */
  predicate Delimited(rest: string) {
    rest == [] || (!Parsing.IsAlpha(rest[0]) && rest[0] != '.')
  }

  /** What may follow a session without being read as more of it. */
  predicate EndsCommands(rest: string) {
    Delimited(rest) && (rest == [] || rest[0] != '\n')
  }

  lemma Uncons<T>(s: seq<T>)
    requires s != []
    ensures [s[0]] + s[1..] == s
  {
  }

  lemma Regroup(a: string, b: string, c: string, d: string)
    ensures (a + (b + c)) + d == a + (b + (c + d))
  {
  }

  /** A printed line of `ls` output is read back whole. */
  lemma ParseEntryShow(e: Listed, rest: string)
    requires ValidEntry(e) && Delimited(rest)
    ensures ParseEntry(ShowEntry(e) + rest) == Some((e, rest))
  {
    match e
    case FileLine(size, name) => FileLineShow(size, name, rest);
    case DirLine(name) => DirLineShow(name, rest);
  }

  lemma FileLineShow(size: nat, name: string, rest: string)
    requires IsFileName(name) && Delimited(rest)
    ensures ParseFile(Parsing.Show(size) + " " + name + rest) == Some((FileLine(size, name), rest))
  {
    var u := name + rest;
    assert Parsing.Show(size) + " " + name + rest == Parsing.Show(size) + (" " + u);
    Parsing.ParseNatShow(size, " " + u);
    assert Parsing.Tag(" " + u, " ") == Some(u);
    Parsing.TakeWhile1Of(name, rest, IsNameChar);
  }

  lemma DirLineShow(name: string, rest: string)
    requires IsAlphaWord(name) && Delimited(rest)
    ensures ParseEntry("dir " + name + rest) == Some((DirLine(name), rest))
  {
    var s := "dir " + (name + rest);
    assert "dir " + name + rest == s;
    assert Parsing.Span(s, Parsing.IsDigit) == 0;
    assert ParseFile(s) == None;
    assert s[..4] == "dir " && s[4..] == name + rest;
    Parsing.TakeWhile1Of(name, rest, Parsing.IsAlpha);
  }

  /** A command line is never an `ls` output line. */
  lemma NotAnEntry(t: string)
    requires t != [] && t[0] == '$'
    ensures ParseEntry(t) == None
  {
    assert Parsing.Span(t, Parsing.IsDigit) == 0;
  }

  /** What may follow the last entry of a listing. */
  predicate EndsEntries(rest: string) {
    Delimited(rest) && (rest == [] || rest[0] != '\n' || ParseEntry(rest[1..]).None?)
  }

  lemma {:induction false} MoreEntriesShow(es: seq<Listed>, rest: string)
    requires es != [] && forall i :: 0 <= i < |es| ==> ValidEntry(es[i])
    requires EndsEntries(rest)
    ensures MoreEntries(EntryGaps(es) + rest) == (es[1..], rest)
    decreases |es|
  {
    if |es| > 1 {
      var tl := es[1..];
      assert forall i :: 0 <= i < |tl| ==> tl[i] == es[i + 1];
      var tail := EntryGaps(tl) + rest;
      var u := ShowEntry(tl[0]) + tail;
      EntryGapsUnfold(es, rest);
      GapsDelimited(tl, rest);
      ParseEntryShow(tl[0], tail);
      EntriesStep("\n" + u, tl[0], tail);
      MoreEntriesShow(tl, rest);
      Uncons(tl);
    } else {
      assert EntryGaps(es) + rest == rest && es[1..] == [];
    }
  }

  /** The gaps after the first entry: a line break, the second entry, then its gaps. */
  lemma EntryGapsUnfold(es: seq<Listed>, rest: string)
    requires |es| > 1
    ensures EntryGaps(es) + rest == "\n" + (ShowEntry(es[1]) + (EntryGaps(es[1..]) + rest))
    ensures ("\n" + (ShowEntry(es[1]) + (EntryGaps(es[1..]) + rest)))[1..]
            == ShowEntry(es[1]) + (EntryGaps(es[1..]) + rest)
  {
    Regroup("\n", ShowEntry(es[1]), EntryGaps(es[1..]), rest);
  }

  /** After a '\n' and an entry, the remaining entries are read by `MoreEntries` again. */
  lemma EntriesStep(t: string, e: Listed, rest: string)
    requires t != [] && t[0] == '\n' && ParseEntry(t[1..]) == Some((e, rest))
    ensures MoreEntries(t) == ([e] + MoreEntries(rest).0, MoreEntries(rest).1)
  {
  }

  /** After a '\n' and an operation, the remaining ones are read by `MoreCommands` again. */
  lemma CommandsStep(t: string, op: Operation, rest: string)
    requires t != [] && t[0] == '\n' && ParseOperation(t[1..]) == Some((op, rest))
    ensures MoreCommands(t) == ([op] + MoreCommands(rest).0, MoreCommands(rest).1)
  {
  }

  /** Once the first operation is read, the rest are read by `MoreCommands`. */
  lemma FirstCommand(t: string, op: Operation, rest: string)
    requires ParseOperation(t) == Some((op, rest))
    ensures ParseCommands(t) == Some(([op] + MoreCommands(rest).0, MoreCommands(rest).1))
  {
  }

  /** Once the first entry is read, the rest are read by `MoreEntries`. */
  lemma FirstEntry(t: string, e: Listed, rest: string)
    requires ParseEntry(t) == Some((e, rest))
    ensures ParseEntries(t) == Some(([e] + MoreEntries(rest).0, MoreEntries(rest).1))
  {
  }

  lemma GapsDelimited(es: seq<Listed>, rest: string)
    requires es != [] && Delimited(rest)
    ensures Delimited(EntryGaps(es) + rest)
  {
  }

  lemma ParseEntriesShow(es: seq<Listed>, rest: string)
    requires es != [] && forall i :: 0 <= i < |es| ==> ValidEntry(es[i])
    requires EndsEntries(rest)
    ensures ParseEntries(ShowEntries(es) + rest) == Some((es, rest))
  {
    var tail := EntryGaps(es) + rest;
    assert ShowEntries(es) + rest == ShowEntry(es[0]) + tail;
    GapsDelimited(es, rest);
    ParseEntryShow(es[0], tail);
    FirstEntry(ShowEntry(es[0]) + tail, es[0], tail);
    MoreEntriesShow(es, rest);
    Uncons(es);
  }

  /** A printed operation is read back whole. */
  lemma ParseOperationShow(op: Operation, rest: string)
    requires ValidOperation(op) && EndsEntries(rest)
    ensures ParseOperation(ShowOperation(op) + rest) == Some((op, rest))
  {
    match op
    case Ls(entries) => LsShow(entries, rest);
    case ChangeDir(target) => CdShow(target, rest);
  }

  lemma LsShow(entries: seq<Listed>, rest: string)
    requires ValidOperation(Ls(entries)) && EndsEntries(rest)
    ensures ParseLs(ShowOperation(Ls(entries)) + rest) == Some((Ls(entries), rest))
  {
    var body := ShowEntries(entries) + rest;
    LsUnfold(entries, rest);
    ParseEntriesShow(entries, rest);
  }

  lemma LsUnfold(entries: seq<Listed>, rest: string)
    requires ValidOperation(Ls(entries))
    ensures var s := ShowOperation(Ls(entries)) + rest;
      s[..4] == "$ ls" && s[4..] == "\n" + (ShowEntries(entries) + rest)
      && ("\n" + (ShowEntries(entries) + rest))[1..] == ShowEntries(entries) + rest
  {
    var body := ShowEntries(entries) + rest;
    var s := "$ ls" + ("\n" + body);
    assert ShowOperation(Ls(entries)) + rest == s;
  }

  lemma CdShow(target: Cd, rest: string)
    requires ValidOperation(ChangeDir(target)) && Delimited(rest)
    ensures ParseOperation(ShowOperation(ChangeDir(target)) + rest) == Some((ChangeDir(target), rest))
  {
    var s := ShowOperation(ChangeDir(target)) + rest;
    var w := match target case Root => "/" case Up => ".." case Down(name) => name;
    assert s == "$ cd " + w + rest;
    assert s[2] == 'c';
    assert Parsing.Tag(s, "$ ls") == None;
    CdClassified(w, rest);
  }

  /** Every printed operation starts with the prompt '$'. */
  lemma ShowOperationStart(op: Operation)
    requires ValidOperation(op)
    ensures ShowOperation(op) != [] && ShowOperation(op)[0] == '$'
  {
  }

  lemma {:induction false} MoreCommandsShow(ops: seq<Operation>, rest: string)
    requires ops != [] && forall i :: 0 <= i < |ops| ==> ValidOperation(ops[i])
    requires EndsCommands(rest)
    ensures MoreCommands(OpGaps(ops) + rest) == (ops[1..], rest)
    decreases |ops|
  {
    if |ops| > 1 {
      var tl := ops[1..];
      assert forall i :: 0 <= i < |tl| ==> tl[i] == ops[i + 1];
      var g := OpGaps(tl);
      var so := ShowOperation(ops[1]);
      var tail := g + rest;
      var u := so + tail;
      assert OpGaps(ops) == "\n" + (so + g);
      Regroup("\n", so, g, rest);
      assert ("\n" + u)[1..] == u;
      OpGapsEnd(tl, rest);
      ParseOperationShow(ops[1], tail);
      CommandsStep("\n" + u, ops[1], tail);
      MoreCommandsShow(tl, rest);
      assert tl[0] == ops[1];
      Uncons(tl);
    } else {
      assert OpGaps(ops) + rest == rest && ops[1..] == [];
    }
  }

  /** Between two printed operations comes a line break and then a `$` prompt. */
  lemma GapsStart(ops: seq<Operation>)
    requires |ops| > 1 && forall i :: 0 <= i < |ops| ==> ValidOperation(ops[i])
    ensures |OpGaps(ops)| >= 2 && OpGaps(ops)[0] == '\n' && OpGaps(ops)[1] == '$'
  {
    ShowOperationStart(ops[1]);
  }

  /** Whatever follows an operation inside a printed session ends its listing. */
  lemma OpGapsEnd(ops: seq<Operation>, rest: string)
    requires ops != [] && forall i :: 0 <= i < |ops| ==> ValidOperation(ops[i])
    requires EndsCommands(rest)
    ensures EndsEntries(OpGaps(ops) + rest)
  {
    if |ops| > 1 {
      GapsStart(ops);
      var t := OpGaps(ops) + rest;
      assert t[0] == '\n' && t[1] == '$';
      NotAnEntry(t[1..]);
    } else {
      assert OpGaps(ops) + rest == rest;
    }
  }

  lemma ShowCommandsUnfold(ops: seq<Operation>, rest: string)
    requires ops != [] && forall i :: 0 <= i < |ops| ==> ValidOperation(ops[i])
    ensures ShowCommands(ops) + rest == ShowOperation(ops[0]) + (OpGaps(ops) + rest)
  {
  }

  /** The grammar reads back any printed session. */
  lemma ParseCommandsShow(ops: seq<Operation>, rest: string)
    requires ops != [] && forall i :: 0 <= i < |ops| ==> ValidOperation(ops[i])
    requires EndsCommands(rest)
    ensures ParseCommands(ShowCommands(ops) + rest) == Some((ops, rest))
  {
    var tail := OpGaps(ops) + rest;
    ShowCommandsUnfold(ops, rest);
    OpGapsEnd(ops, rest);
    ParseOperationShow(ops[0], tail);
    FirstCommand(ShowOperation(ops[0]) + tail, ops[0], tail);
    MoreCommandsShow(ops, rest);
    Uncons(ops);
  }

  // ---------------------------------------------------------------------------
  // Replay: the context stack and the files recorded per path.

  datatype State = State(context: seq<string>, directories: map<string, seq<File>>)

  /** The key of the current directory: the context joined with '/'. */
  function PathOf(context: seq<string>): string {
    Text.Join(context, '/')
  }

  function Get(m: map<string, seq<File>>, k: string): seq<File> {
    if k in m then m[k] else []
  }

  /** The file lines of a listing, in order; `dir` lines add nothing. */
  function FilesOf(listing: seq<Listed>): seq<File> {
    if listing == [] then []
    else
      var last := listing[|listing| - 1];
      FilesOf(listing[..|listing| - 1])
      + (match last case FileLine(size, name) => [File(size, name)] case DirLine(_) => [])
  }

  /** One command: `cd /` pushes "", `cd ..` pops (nothing on an empty stack), `cd x`
      pushes x; `ls` makes sure the current path has an entry and appends its files. */
  function Step(st: State, op: Operation): State {
    match op
    case ChangeDir(Root) => State(st.context + [""], st.directories)
    case ChangeDir(Up) =>
      State(if st.context == [] then [] else st.context[..|st.context| - 1], st.directories)
    case ChangeDir(Down(name)) => State(st.context + [name], st.directories)
    case Ls(listing) =>
      var path := PathOf(st.context);
      State(st.context, st.directories[path := Get(st.directories, path) + FilesOf(listing)])
  }

  /** The state after the commands, from an empty stack and no directories. */
  function Run(ops: seq<Operation>): State {
    if ops == [] then State([], map[]) else Step(Run(ops[..|ops| - 1]), ops[|ops| - 1])
  }

  /** The loop of `process_part1`/`process_part2` over the commands. */
  method Replay(cmds: seq<Operation>) returns (directories: map<string, seq<File>>)
    ensures directories == Run(cmds).directories
  {
    directories := map[];
    var context: seq<string> := [];
    var i := 0;
    while i < |cmds|
      invariant 0 <= i <= |cmds|
      invariant State(context, directories) == Run(cmds[..i])
    {
      assert cmds[..i + 1][..i] == cmds[..i];
      match cmds[i] {
      case ChangeDir(Root) =>
        context := context + [""];
      case ChangeDir(Up) =>
        if context != [] {
          context := context[..|context| - 1];
        }
      case ChangeDir(Down(name)) =>
        context := context + [name];
      case Ls(listing) =>
        directories := RecordListing(directories, Text.Join(context, '/'), listing);
      }
      i := i + 1;
    }
    assert cmds[..|cmds|] == cmds;
  }

  /** The inner loop over one `ls` output: the path's entry is created if missing,
      then each file line is appended to it. */
  method RecordListing(d0: map<string, seq<File>>, path: string, listing: seq<Listed>)
    returns (directories: map<string, seq<File>>)
    ensures directories == d0[path := Get(d0, path) + FilesOf(listing)]
  {
    ghost var before := Get(d0, path);
    directories := d0;
    if path !in directories {
      directories := directories[path := []];
    } else {
      assert directories == d0[path := before];
    }
    assert listing[..0] == [] && before + [] == before;
    var j := 0;
    while j < |listing|
      invariant 0 <= j <= |listing|
      invariant directories == d0[path := before + FilesOf(listing[..j])]
    {
      ghost var done := FilesOf(listing[..j]);
      assert listing[..j + 1][..j] == listing[..j];
      match listing[j] {
      case FileLine(size, name) =>
        assert FilesOf(listing[..j + 1]) == done + [File(size, name)];
        assert (before + done) + [File(size, name)] == before + (done + [File(size, name)]);
        directories := directories[path := directories[path] + [File(size, name)]];
      case DirLine(_) =>
        assert FilesOf(listing[..j + 1]) == done + [];
        assert done + [] == done;
      }
      j := j + 1;
    }
    assert listing[..|listing|] == listing;
  }

  /** The `cd` commands alone. */
  function CdsOf(ops: seq<Operation>): seq<Operation> {
    if ops == [] then []
    else CdsOf(ops[..|ops| - 1]) + (if ops[|ops| - 1].ChangeDir? then [ops[|ops| - 1]] else [])
  }

  /** Only `cd` changes the context: `ls` leaves the stack as it was. */
  lemma {:induction false} ContextFromCds(ops: seq<Operation>)
    ensures Run(ops).context == Run(CdsOf(ops)).context
  {
    if ops != [] {
      var init := ops[..|ops| - 1];
      var last := ops[|ops| - 1];
      ContextFromCds(init);
      if last.ChangeDir? {
        var cs := CdsOf(init) + [last];
        assert CdsOf(ops) == cs;
        assert cs[..|cs| - 1] == CdsOf(init);
        CdStepContext(Run(init), Run(CdsOf(init)), last);
      } else {
        assert CdsOf(ops) == CdsOf(init) + [];
        assert CdsOf(init) + [] == CdsOf(init);
      }
    }
  }

  lemma CdStepContext(st1: State, st2: State, op: Operation)
    requires st1.context == st2.context && op.ChangeDir?
    ensures Step(st1, op).context == Step(st2, op).context
  {
  }

  /** An `ls` always creates the entry of the current path, even when it lists only
      subdirectories, and leaves every other entry as it was. */
  lemma LsCreatesEntry(ops: seq<Operation>, listing: seq<Listed>)
    ensures var st := Run(ops);
            var after := Run(ops + [Ls(listing)]);
            PathOf(st.context) in after.directories
            && after.directories.Keys == st.directories.Keys + {PathOf(st.context)}
            && (forall k :: k in st.directories && k != PathOf(st.context)
                  ==> after.directories[k] == st.directories[k])
  {
    assert (ops + [Ls(listing)])[..|ops|] == ops;
  }

  /** The sum of a directory's file sizes, `files.iter().map(..).sum()`. */
  function DirSize(files: seq<File>): nat {
    if files == [] then 0 else DirSize(files[..|files| - 1]) + files[|files| - 1].size
  }

  lemma {:induction false} DirSizeAppend(a: seq<File>, b: seq<File>)
    ensures DirSize(a + b) == DirSize(a) + DirSize(b)
    decreases |b|
  {
    if b != [] {
      assert (a + b)[..|a + b| - 1] == a + b[..|b| - 1];
      assert (a + b)[|a + b| - 1] == b[|b| - 1];
      DirSizeAppend(a, b[..|b| - 1]);
    } else {
      assert a + b == a;
    }
  }

  /** The sizes on the file lines of a listing, read straight off the lines. */
  function LineSizes(listing: seq<Listed>): nat {
    if listing == [] then 0
    else (if listing[0].FileLine? then listing[0].size else 0) + LineSizes(listing[1..])
  }

  /** Recording a listing keeps exactly the sizes of its file lines. */
  lemma {:induction false} FilesOfSize(listing: seq<Listed>)
    ensures DirSize(FilesOf(listing)) == LineSizes(listing)
    decreases |listing|
  {
    if listing != [] {
      var init := listing[..|listing| - 1];
      var last := listing[|listing| - 1];
      FilesOfSize(init);
      var extra := match last case FileLine(size, name) => [File(size, name)] case DirLine(_) => [];
      DirSizeAppend(FilesOf(init), extra);
      LineSizesSnoc(init, last);
      assert init + [last] == listing;
    }
  }

  lemma {:induction false} LineSizesSnoc(init: seq<Listed>, last: Listed)
    ensures LineSizes(init + [last]) == LineSizes(init) + (if last.FileLine? then last.size else 0)
    decreases |init|
  {
    if init != [] {
      assert (init + [last])[1..] == init[1..] + [last];
      LineSizesSnoc(init[1..], last);
    } else {
      assert ([] + [last])[1..] == [];
    }
  }

  // ---------------------------------------------------------------------------
  // Sums over the keys of a map, in any order.

  /** The sum of `f` over a finite set of strings. */
  ghost function SetSum(s: set<string>, f: string -> nat): nat
    decreases s
  {
    if s == {} then 0 else var x :| x in s; f(x) + SetSum(s - {x}, f)
  }

  /** Any element can be taken out first: the sum does not depend on the order. */
  lemma {:induction false} SetSumRemove(s: set<string>, f: string -> nat, y: string)
    requires y in s
    ensures SetSum(s, f) == f(y) + SetSum(s - {y}, f)
    decreases s
  {
    var x :| x in s && SetSum(s, f) == f(x) + SetSum(s - {x}, f);
    if x != y {
      SetSumRemove(s - {x}, f, y);
      SetSumRemove(s - {y}, f, x);
      assert s - {x} - {y} == s - {y} - {x};
    }
  }

  lemma {:induction false} SetSumMono(s: set<string>, f: string -> nat, g: string -> nat)
    requires forall x :: x in s ==> f(x) >= g(x)
    ensures SetSum(s, f) >= SetSum(s, g)
    decreases s
  {
    if s != {} {
      var x :| x in s;
      SetSumRemove(s, f, x);
      SetSumRemove(s, g, x);
      SetSumMono(s - {x}, f, g);
    }
  }

  lemma {:induction false} SetSumSame(s: set<string>, f: string -> nat, g: string -> nat)
    requires forall x :: x in s ==> f(x) == g(x)
    ensures SetSum(s, f) == SetSum(s, g)
    decreases s
  {
    SetSumMono(s, f, g);
    SetSumMono(s, g, f);
  }

  lemma {:induction false} SetSumZero(s: set<string>, f: string -> nat)
    requires forall x :: x in s ==> f(x) == 0
    ensures SetSum(s, f) == 0
    decreases s
  {
    if s != {} {
      var x :| x in s;
      SetSumRemove(s, f, x);
      SetSumZero(s - {x}, f);
    }
  }

  // ---------------------------------------------------------------------------
  // Conservation: every listed file is recorded once, under one path.

  function SizeIn(d: map<string, seq<File>>): string -> nat {
    p => DirSize(Get(d, p))
  }

  /** All recorded file sizes together. */
  ghost function RecordedSize(d: map<string, seq<File>>): nat {
    SetSum(d.Keys, SizeIn(d))
  }

  /** All file lines of all listings together. */
  function ListedSize(ops: seq<Operation>): nat {
    if ops == [] then 0
    else ListedSize(ops[..|ops| - 1])
         + (match ops[|ops| - 1] case Ls(listing) => LineSizes(listing) case ChangeDir(_) => 0)
  }

  /** Replaying records exactly the listed file sizes, whatever the `cd`s do. */
  lemma {:induction false} RecordedIsListed(ops: seq<Operation>)
    ensures RecordedSize(Run(ops).directories) == ListedSize(ops)
  {
    if ops != [] {
      var init := ops[..|ops| - 1];
      RecordedIsListed(init);
      match ops[|ops| - 1]
      case ChangeDir(_) =>
      case Ls(listing) =>
        var d := Run(init).directories;
        var p := PathOf(Run(init).context);
        FilesOfSize(listing);
        RecordOne(d, p, FilesOf(listing));
    }
  }

  /** Appending files under one key adds their sizes to the recorded total. */
  lemma RecordOne(d: map<string, seq<File>>, p: string, files: seq<File>)
    ensures RecordedSize(d[p := Get(d, p) + files]) == RecordedSize(d) + DirSize(files)
  {
    var d' := d[p := Get(d, p) + files];
    assert d'.Keys == d.Keys + {p};
    SetSumRemove(d'.Keys, SizeIn(d'), p);
    assert d'.Keys - {p} == d.Keys - {p};
    SetSumSame(d.Keys - {p}, SizeIn(d'), SizeIn(d));
    DirSizeAppend(Get(d, p), files);
    if p in d {
      SetSumRemove(d.Keys, SizeIn(d), p);
    } else {
      assert d.Keys - {p} == d.Keys;
    }
  }

  // ---------------------------------------------------------------------------
  // Aggregation over path prefixes.

  /** The '/'-components of a path. */
  function Comps(path: string): seq<string> {
    Text.Split(path, '/')
  }

  /** `a` names `b` or one of its ancestors: its components start `b`'s. */
  predicate Encloses(a: string, b: string) {
    Comps(a) <= Comps(b)
  }

  /** What the recorded path `p` adds to the total of `q`. */
  function Share(d: map<string, seq<File>>, q: string): string -> nat {
    p => if Encloses(q, p) then DirSize(Get(d, p)) else 0
  }

  /** The total of `q`: the files recorded at `q` or below it. */
  ghost function Total(d: map<string, seq<File>>, q: string): nat {
    SetSum(d.Keys, Share(d, q))
  }

  /** Some path in `ks` lies at or below `q`. */
  ghost predicate Reached(ks: set<string>, q: string) {
    exists p :: p in ks && Encloses(q, p)
  }

  /** Every prefix of the components of every path in `ks`, joined again. */
  function Prefixes(ks: set<string>): set<string> {
    set p, i | p in ks && 0 <= i < |Comps(p)| :: PrefixPath(p, i)
  }

  /** The first `i + 1` components of `p`, joined again. */
  function PrefixPath(p: string, i: nat): string
    requires i < |Comps(p)|
  {
    Text.Join(Comps(p)[..i + 1], '/')
  }

  /** The `sizes` map the aggregation loop builds. */
  ghost function Sizes(d: map<string, seq<File>>): map<string, nat> {
    map q | q in Prefixes(d.Keys) :: Total(d, q)
  }

  /** Joining components read off a path gives the path back, and the components of
      a join are the joined parts. */
  lemma CompsOfJoin(parts: seq<string>)
    requires |parts| >= 1 && forall i :: 0 <= i < |parts| ==> '/' !in parts[i]
    ensures Comps(Text.Join(parts, '/')) == parts
  {
    Text.SplitJoin(parts, '/');
  }

  lemma JoinOfComps(q: string)
    ensures Text.Join(Comps(q), '/') == q
  {
    Text.JoinSplit(q, '/');
  }

  /** The joined prefixes of `ks` are exactly the paths that enclose one of `ks`. */
  lemma PrefixesReached(ks: set<string>, q: string)
    ensures q in Prefixes(ks) <==> Reached(ks, q)
  {
    if q in Prefixes(ks) {
      var p, i :| p in ks && 0 <= i < |Comps(p)| && q == PrefixPath(p, i);
      CompsOfJoin(Comps(p)[..i + 1]);
      assert Encloses(q, p);
    }
    if Reached(ks, q) {
      var p :| p in ks && Encloses(q, p);
      var i := |Comps(q)| - 1;
      assert Comps(p)[..i + 1] == Comps(q);
      JoinOfComps(q);
      assert q == PrefixPath(p, i);
    }
  }

  /** The loop of `process_part1`/`process_part2` over `directories`: each path's
      file total is added to every prefix of its components. */
  method Aggregate(directories: map<string, seq<File>>) returns (sizes: map<string, nat>)
    ensures sizes == Sizes(directories)
  {
    sizes := map[];
    var remaining := directories.Keys;
    ghost var done: set<string> := {};
    while remaining != {}
      invariant remaining !! done && remaining + done == directories.Keys
      invariant Summed(done, directories, sizes)
      decreases |remaining|
    {
      var path :| path in remaining;
      sizes := AddPath(done, directories, sizes, path);
      remaining := remaining - {path};
      done := done + {path};
    }
    assert done == directories.Keys;
    SummedIsSizes(directories, sizes);
  }

  /** One turn of the outer loop: the files of `path` are added to every prefix of it. */
  method AddPath(ghost done: set<string>, directories: map<string, seq<File>>, sizes0: map<string, nat>,
                 path: string)
    returns (sizes: map<string, nat>)
    requires path in directories && path !in done
    requires Summed(done, directories, sizes0)
    ensures Summed(done + {path}, directories, sizes)
  {
    sizes := sizes0;
    var dirs := Text.Split(path, '/');
    var size := DirSize(directories[path]);
    StartPath(done, directories, sizes, dirs, size);
    var i := 0;
    while i < |dirs|
      invariant 0 <= i <= |dirs|
      invariant Adding(done, directories, sizes, dirs, i, size)
    {
      var key := Text.Join(dirs[..i + 1], '/');
      AddPrefix(done, directories, sizes, dirs, i, size, key);
      sizes := Bump(sizes, key, size);
      i := i + 1;
    }
    FinishPath(done, directories, sizes, path, size);
  }

  /** Once every path is summed, the map is `Sizes`. */
  lemma SummedIsSizes(d: map<string, seq<File>>, sizes: map<string, nat>)
    requires Summed(d.Keys, d, sizes)
    ensures sizes == Sizes(d)
  {
    SummedKeys(d, sizes);
    SummedValues(d, sizes);
    SizesByKeysAndValues(d, sizes);
  }

  lemma SummedKeys(d: map<string, seq<File>>, sizes: map<string, nat>)
    requires Summed(d.Keys, d, sizes)
    ensures sizes.Keys == Prefixes(d.Keys)
  {
    forall q ensures q in sizes <==> q in Prefixes(d.Keys) {
      assert SummedAt(d.Keys, d, sizes, q);
      PrefixesReached(d.Keys, q);
    }
  }

  lemma SummedValues(d: map<string, seq<File>>, sizes: map<string, nat>)
    requires Summed(d.Keys, d, sizes)
    ensures forall q :: q in sizes ==> sizes[q] == Total(d, q)
  {
    forall q | q in sizes ensures sizes[q] == Total(d, q) {
      assert SummedAt(d.Keys, d, sizes, q);
    }
  }

  /** A map keyed by the prefixes and holding each prefix's total is `Sizes`. */
  lemma SizesByKeysAndValues(d: map<string, seq<File>>, sizes: map<string, nat>)
    requires sizes.Keys == Prefixes(d.Keys)
    requires forall q :: q in sizes ==> sizes[q] == Total(d, q)
    ensures sizes == Sizes(d)
  {
  }

  /** The outer loop's invariant: `sizes` holds the sums over the paths in `done`. */
  ghost predicate Summed(done: set<string>, d: map<string, seq<File>>, sizes: map<string, nat>) {
    forall q :: SummedAt(done, d, sizes, q)
  }

  ghost predicate SummedAt(done: set<string>, d: map<string, seq<File>>, sizes: map<string, nat>,
                           q: string) {
    (q in sizes <==> Reached(done, q)) && (q in sizes ==> sizes[q] == SetSum(done, Share(d, q)))
  }

  /** The inner loop's invariant: `size` has been added to the first `i` prefixes. */
  ghost predicate Adding(done: set<string>, d: map<string, seq<File>>, sizes: map<string, nat>,
                         dirs: seq<string>, i: nat, size: nat) {
    forall q :: AddedAt(done, d, sizes, dirs, i, size, q)
  }

  ghost predicate AddedAt(done: set<string>, d: map<string, seq<File>>, sizes: map<string, nat>,
                          dirs: seq<string>, i: nat, size: nat, q: string) {
    (q in sizes <==> Reached(done, q) || Below(q, dirs, i))
    && (q in sizes ==> sizes[q] == SetSum(done, Share(d, q)) + (if Below(q, dirs, i) then size else 0))
  }

  /** `q` is one of the first `i` prefixes of `dirs`. */
  predicate Below(q: string, dirs: seq<string>, i: nat) {
    Comps(q) <= dirs && |Comps(q)| <= i
  }

  lemma StartPath(done: set<string>, d: map<string, seq<File>>, sizes: map<string, nat>,
                  dirs: seq<string>, size: nat)
    requires Summed(done, d, sizes)
    ensures Adding(done, d, sizes, dirs, 0, size)
  {
    forall q ensures AddedAt(done, d, sizes, dirs, 0, size, q) {
      assert SummedAt(done, d, sizes, q);
      assert |Comps(q)| >= 1;
    }
  }

  /** `and_modify(+= size).or_insert(size)` on the next prefix `key`. */
  function Bump(sizes: map<string, nat>, key: string, size: nat): map<string, nat> {
    if key in sizes then sizes[key := sizes[key] + size] else sizes[key := size]
  }

  /** The step of the inner loop: the prefix `key` is the only path that becomes
      `Below` when `i` grows, and a key not yet present had nothing added before. */
  lemma AddPrefix(done: set<string>, d: map<string, seq<File>>, sizes: map<string, nat>,
                  dirs: seq<string>, i: nat, size: nat, key: string)
    requires i < |dirs| && forall k :: 0 <= k < |dirs| ==> '/' !in dirs[k]
    requires key == Text.Join(dirs[..i + 1], '/')
    requires Adding(done, d, sizes, dirs, i, size)
    ensures Adding(done, d, Bump(sizes, key, size), dirs, i + 1, size)
  {
    NextBelow(dirs, i, key);
    if key !in sizes {
      assert AddedAt(done, d, sizes, dirs, i, size, key);
      forall p | p in done ensures Share(d, key)(p) == 0 {
        assert !Encloses(key, p);
      }
      SetSumZero(done, Share(d, key));
    }
    var s' := Bump(sizes, key, size);
    var j := i + 1;
    forall q ensures AddedAt(done, d, s', dirs, j, size, q) {
      assert AddedAt(done, d, sizes, dirs, i, size, q);
      if q != key {
        assert q in s' <==> q in sizes;
        assert q in s' ==> s'[q] == sizes[q];
        assert Below(q, dirs, j) == Below(q, dirs, i);
      }
    }
  }

  /** Growing `i` by one adds exactly the prefix `key` to the paths `Below`. */
  lemma NextBelow(dirs: seq<string>, i: nat, key: string)
    requires i < |dirs| && forall k :: 0 <= k < |dirs| ==> '/' !in dirs[k]
    requires key == Text.Join(dirs[..i + 1], '/')
    ensures !Below(key, dirs, i) && Below(key, dirs, i + 1)
    ensures forall q :: Below(q, dirs, i + 1) <==> Below(q, dirs, i) || q == key
  {
    CompsOfJoin(dirs[..i + 1]);
    assert Below(key, dirs, i + 1);
    forall q | Below(q, dirs, i + 1) && !Below(q, dirs, i)
      ensures q == key
    {
      assert Comps(q) == dirs[..i + 1];
      JoinOfComps(q);
    }
  }

  /** The step of the outer loop: after all prefixes of `path`, its total is part
      of every prefix's sum. */
  lemma FinishPath(done: set<string>, d: map<string, seq<File>>, sizes: map<string, nat>,
                   path: string, size: nat)
    requires path in d && path !in done && size == DirSize(d[path])
    requires Adding(done, d, sizes, Comps(path), |Comps(path)|, size)
    ensures Summed(done + {path}, d, sizes)
  {
    forall q ensures SummedAt(done + {path}, d, sizes, q) {
      assert AddedAt(done, d, sizes, Comps(path), |Comps(path)|, size, q);
      assert Below(q, Comps(path), |Comps(path)|) <==> Encloses(q, path);
      if Reached(done + {path}, q) {
        var p :| p in done + {path} && Encloses(q, p);
        if p != path {
          assert p in done;
        }
      }
      SetSumRemove(done + {path}, Share(d, q), path);
      assert done + {path} - {path} == done;
    }
  }

  /** A path's total is at least the total of any path it encloses: a parent holds at
      least as much as each child, and "" (the root, `cd /`) at least as much as any
      path that starts with '/'. */
  lemma EnclosingIsLarger(d: map<string, seq<File>>, a: string, b: string)
    requires Encloses(a, b)
    ensures Total(d, a) >= Total(d, b)
  {
    forall p | p in d.Keys ensures Share(d, a)(p) >= Share(d, b)(p) {
    }
    SetSumMono(d.Keys, Share(d, a), Share(d, b));
  }

  /** The root "" encloses "" and every path that starts with '/'. */
  lemma RootEncloses(q: string)
    requires q == [] || q[0] == '/'
    ensures Encloses("", q)
  {
    assert Comps("") == [""];
    if q != [] {
      assert Text.IndexOf(q, '/') == 0;
      assert Comps(q)[0] == q[..0];
    }
  }

  /** A directory's total includes its own files. */
  lemma TotalHoldsOwnFiles(d: map<string, seq<File>>, q: string)
    requires q in d
    ensures Total(d, q) >= DirSize(d[q])
  {
    SetSumRemove(d.Keys, Share(d, q), q);
  }

  // ---------------------------------------------------------------------------
  // Part 1: the totals strictly below 100000, added up.

  const SmallLimit: nat := 100000

  function SmallPart(sizes: map<string, nat>): string -> nat {
    k => if k in sizes && sizes[k] < SmallLimit then sizes[k] else 0
  }

  /** `sizes.iter().filter(..).map(..).sum()`. */
  method SumSmall(sizes: map<string, nat>) returns (total: nat)
    ensures total == SetSum(sizes.Keys, SmallPart(sizes))
  {
    total := 0;
    var remaining := sizes.Keys;
    while remaining != {}
      invariant remaining <= sizes.Keys
      invariant total + SetSum(remaining, SmallPart(sizes)) == SetSum(sizes.Keys, SmallPart(sizes))
      decreases |remaining|
    {
      var k :| k in remaining;
      SetSumRemove(remaining, SmallPart(sizes), k);
      if sizes[k] < SmallLimit {
        total := total + sizes[k];
      }
      remaining := remaining - {k};
    }
  }

  /** Every small total is counted, and the sum is at most the sum of all totals. */
  lemma SmallSumBounds(sizes: map<string, nat>, k: string)
    requires k in sizes && sizes[k] < SmallLimit
    ensures SetSum(sizes.Keys, SmallPart(sizes)) >= sizes[k]
    ensures SetSum(sizes.Keys, SmallPart(sizes)) <= SetSum(sizes.Keys, k' => if k' in sizes then sizes[k'] else 0)
  {
    SetSumRemove(sizes.Keys, SmallPart(sizes), k);
    SetSumMono(sizes.Keys, k' => if k' in sizes then sizes[k'] else 0, SmallPart(sizes));
  }

  method Part1(input: string) returns (answer: nat)
    requires ParseCommands(input).Some?
    ensures var sizes := Sizes(Run(ParseCommands(input).value.0).directories);
            answer == SetSum(sizes.Keys, SmallPart(sizes))
  {
    var cmds := ParseCommands(input).value.0;
    var directories := Replay(cmds);
    var sizes := Aggregate(directories);
    answer := SumSmall(sizes);
  }

  // ---------------------------------------------------------------------------
  // Part 2: the smallest total that frees enough space.

  const DiskSize: nat := 70000000
  const SpaceNeeded: nat := 30000000

  /** The smallest total strictly above `need` (`filter`, `sort`, first). */
  method SmallestAbove(sizes: map<string, nat>, need: nat) returns (best: nat)
    requires exists k :: k in sizes && sizes[k] > need
    ensures best > need && exists k :: k in sizes && sizes[k] == best
    ensures forall k :: k in sizes && sizes[k] > need ==> best <= sizes[k]
  {
    var found: Option<nat> := None;
    var remaining := sizes.Keys;
    ghost var w0 :| w0 in sizes && sizes[w0] > need;
    while remaining != {}
      invariant remaining <= sizes.Keys
      invariant found.None? ==> w0 in remaining
      invariant found.Some? ==> found.value > need && exists k :: k in sizes && sizes[k] == found.value
      invariant forall k :: k in sizes && k !in remaining && sizes[k] > need
                  ==> found.Some? && found.value <= sizes[k]
      decreases |remaining|
    {
      var k :| k in remaining;
      if sizes[k] > need && (found.None? || sizes[k] < found.value) {
        found := Some(sizes[k]);
      }
      remaining := remaining - {k};
    }
    best := found.value;
  }

  /** `part2`: "" must have a total (a `cd /` followed by an `ls`), and that total, the
      used space, must lie between 40000000 and 70000000 for the subtraction. */
  method Part2(input: string) returns (answer: nat)
    requires ParseCommands(input).Some?
    requires var sizes := Sizes(Run(ParseCommands(input).value.0).directories);
             "" in sizes && DiskSize - SpaceNeeded <= sizes[""] <= DiskSize
    ensures var sizes := Sizes(Run(ParseCommands(input).value.0).directories);
            var need := SpaceNeeded - (DiskSize - sizes[""]);
            answer > need && answer <= sizes[""]
            && (exists k :: k in sizes && sizes[k] == answer)
            && (forall k :: k in sizes && sizes[k] > need ==> answer <= sizes[k])
  {
    var cmds := ParseCommands(input).value.0;
    var directories := Replay(cmds);
    var sizes := Aggregate(directories);
    var used := sizes[""];
    var need := SpaceNeeded - (DiskSize - used);
    answer := SmallestAbove(sizes, need);
  }
}
