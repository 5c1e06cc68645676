/** main.go: the command read from standard input. handleCommand splits the
    line at single spaces and either answers at once or hands the pieces to
    merge (retrieve.go) or the second piece to initializeTitles (db.go).
    Reading standard input, printing the answer and listening again in a
    new goroutine are not modelled; the two commands are modelled by
    Retrieve.Merge and Store.InitializeTitles, so a route names the call and
    its argument. */
module Commands {
  import opened GoLib

  const NoDestination: string := "No destination db provided"
  const NotRecognized: string := "Command not recognized"

  /** What handleCommand does with a line. */
  datatype Route = RunMerge(parts: seq<string>) | RunInitialize(path: string) | Reply(msg: string)

  /** handleCommand, up to the call it makes. */
  function HandleCommand(command: string): (r: Route)
    ensures r.RunMerge? ==> |r.parts| >= 2 && Join(r.parts, " ") == command
    ensures r.RunInitialize? ==> ' ' !in r.path
  {
    var parts := Split(command, ' ');
    SplitJoin(command, ' ');
    if parts[0] == "merge" then
      if |parts| < 2 then Reply(NoDestination) else RunMerge(parts)
    else if parts[0] == "initialize" then
      if |parts| < 2 then Reply(NoDestination) else RunInitialize(parts[1])
    else Reply(NotRecognized)
  }

  predicate StartsWith(s: string, prefix: string)
  {
    |prefix| <= |s| && s[..|prefix|] == prefix
  }

  /** A string without the separator is one piece. */
  lemma {:induction false} SplitWithoutSep(s: string, sep: char)
    requires sep !in s
    ensures Split(s, sep) == [s]
  {
    if |s| > 0 {
      SplitWithoutSep(s[1..], sep);
      assert [s[0]] + s[1..] == s;
    }
  }

  /** A word followed by the separator is the first piece. */
  lemma {:induction false} SplitAfterWord(w: string, rest: string, sep: char)
    requires sep !in w
    ensures Split(w + [sep] + rest, sep) == [w] + Split(rest, sep)
  {
    var s := w + [sep] + rest;
    if |w| > 0 {
      SplitAfterWord(w[1..], rest, sep);
      assert s[1..] == w[1..] + [sep] + rest;
      assert [w[0]] + w[1..] == w;
    } else {
      assert s[1..] == rest;
    }
  }

  /** The first piece is `w` exactly when the line is `w` alone or starts
      with `w` and a space. */
  lemma FirstPiece(command: string, w: string)
    requires ' ' !in w
    ensures Split(command, ' ')[0] == w <==> command == w || StartsWith(command, w + " ")
  {
    var parts := Split(command, ' ');
    SplitJoin(command, ' ');
    if parts[0] == w && |parts| > 1 {
      assert command == w + " " + Join(parts[1..], " ");
      assert command[..|w| + 1] == w + " ";
    }
    if command == w {
      SplitWithoutSep(w, ' ');
    } else if StartsWith(command, w + " ") {
      var rest := command[|w| + 1..];
      assert command == w + [' '] + rest;
      SplitAfterWord(w, rest, ' ');
    }
  }

  /** Any line whose first word is neither command is refused. */
  lemma NotRecognizedIff(command: string)
    ensures HandleCommand(command) == Reply(NotRecognized) <==>
      !(command == "merge" || StartsWith(command, "merge ")
        || command == "initialize" || StartsWith(command, "initialize "))
  {
    var first := Split(command, ' ')[0];
    assert HandleCommand(command) == Reply(NotRecognized) <==> first != "merge" && first != "initialize";
    FirstPiece(command, "merge");
    FirstPiece(command, "initialize");
  }

  /** A command without a path is answered with the missing-database
      message, and only a bare command is. */
  lemma NoDestinationIff(command: string)
    ensures HandleCommand(command) == Reply(NoDestination) <==>
      command == "merge" || command == "initialize"
  {
    var parts := Split(command, ' ');
    SplitJoin(command, ' ');
    if |parts| == 1 {
      assert Join(parts, " ") == parts[0];
    }
    if command == "merge" {
      SplitWithoutSep(command, ' ');
    } else if command == "initialize" {
      SplitWithoutSep(command, ' ');
    }
  }

  /** `merge <path> ...` hands merge every piece, the command word first. */
  lemma MergeGetsPieces(rest: string)
    ensures HandleCommand("merge " + rest) == RunMerge(["merge"] + Split(rest, ' '))
  {
    assert "merge " + rest == "merge" + [' '] + rest;
    SplitAfterWord("merge", rest, ' ');
  }

  /** `initialize <path>` initializes from the text up to the next space;
      a second space right after the command gives the empty path. */
  lemma InitializeGetsPath(path: string, rest: string)
    requires ' ' !in path
    ensures HandleCommand("initialize " + path) == RunInitialize(path)
    ensures HandleCommand("initialize " + path + " " + rest) == RunInitialize(path)
  {
    assert "initialize " + path == "initialize" + [' '] + path;
    SplitAfterWord("initialize", path, ' ');
    SplitWithoutSep(path, ' ');
    assert "initialize " + path + " " + rest == "initialize" + [' '] + (path + [' '] + rest);
    SplitAfterWord("initialize", path + [' '] + rest, ' ');
    SplitAfterWord(path, rest, ' ');
  }

  /** A leading space makes the first piece empty, so the line is refused. */
  lemma LeadingSpaceRefused(rest: string)
    ensures HandleCommand(" " + rest) == Reply(NotRecognized)
  {
    assert " " + rest == "" + [' '] + rest;
    SplitAfterWord("", rest, ' ');
  }
}
