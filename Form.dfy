/**
 The terminal form: three text fields (save path, directory to scan, depth), a
 status label and the submit handler that checks the inputs in a fixed order,
 normalises the save path to end in ".xlsx" and runs the report.
 */
module Form {
  import opened FileTree
  import opened Ranking
  import opened ExtensionTally
  import opened Report

  datatype Option<T> = None | Some(value: T)

  /** --- The ".xlsx" suffix rule --- */

  /** `s` cut at every '.', as `String.Split(".")` does: one part more than
      there are dots, empty parts kept. */
  function Split(s: string): (parts: seq<string>)
    ensures |parts| >= 1
  {
    if s == [] then [""]
    else
      var init := Split(s[..|s| - 1]);
      if s[|s| - 1] == '.' then init + [""]
      else init[..|init| - 1] + [init[|init| - 1] + [s[|s| - 1]]]
  }

  /** The parts put back together with a '.' between neighbours. */
  function Join(parts: seq<string>): string
    requires |parts| >= 1
  {
    if |parts| == 1 then parts[0] else Join(parts[..|parts| - 1]) + "." + parts[|parts| - 1]
  }

  predicate NoDots(parts: seq<string>)
  {
    forall i :: 0 <= i < |parts| ==> '.' !in parts[i]
  }

  /** One more character that is not a dot extends the last part. */
  lemma SplitSnoc(x: string, c: char)
    requires c != '.'
    ensures var p := Split(x);
      Split(x + [c]) == p[..|p| - 1] + [p[|p| - 1] + [c]]
  {
    var y := x + [c];
    assert y[..|y| - 1] == x && y[|y| - 1] == c;
  }

  /** Extending a string by dot-free text extends its last part and nothing else. */
  lemma {:induction false} SplitExtend(a: string, t: string)
    requires '.' !in t
    ensures var p := Split(a);
      Split(a + t) == p[..|p| - 1] + [p[|p| - 1] + t]
    decreases |t|
  {
    var p := Split(a);
    if t == [] {
      assert a + t == a && p[|p| - 1] + t == p[|p| - 1];
      SplitAt(p, |p| - 1);
    } else {
      var t' := t[..|t| - 1];
      var c := t[|t| - 1];
      assert c in t;
      assert forall x :: x in t' ==> x in t;
      SplitExtend(a, t');
      var last := p[|p| - 1];
      var init := p[..|p| - 1];
      var q := Split(a + t');
      assert q == init + [last + t'];
      DropLast(init, last + t');
      assert t' + [c] == t;
      Assoc(a, t', [c]);
      SplitSnoc(a + t', c);
      assert Split(a + t) == q[..|q| - 1] + [q[|q| - 1] + [c]];
      Assoc(last, t', [c]);
    }
  }

  /** A dot followed by dot-free text starts a new last part holding that text. */
  lemma SplitDot(a: string, t: string)
    requires '.' !in t
    ensures Split(a + "." + t) == Split(a) + [t]
  {
    var x := a + ".";
    assert x[..|x| - 1] == a && x[|x| - 1] == '.';
    assert Split(x) == Split(a) + [""];
    SplitExtend(x, t);
    assert (Split(a) + [""])[..|Split(a)|] == Split(a);
    assert "" + t == t;
  }

  /** Extending the last part extends the joined string by the same text. */
  lemma JoinExtendLast(p: seq<string>, suffix: string)
    requires |p| >= 1
    ensures Join(p[..|p| - 1] + [p[|p| - 1] + suffix]) == Join(p) + suffix
  {
    var r := p[..|p| - 1] + [p[|p| - 1] + suffix];
    assert r[..|r| - 1] == p[..|p| - 1];
  }

  lemma NoDotsExtendLast(p: seq<string>, c: char)
    requires |p| >= 1 && NoDots(p) && c != '.'
    ensures NoDots(p[..|p| - 1] + [p[|p| - 1] + [c]])
  {
    var r := p[..|p| - 1] + [p[|p| - 1] + [c]];
    forall i | 0 <= i < |r| ensures '.' !in r[i] {
      if i < |p| - 1 {
        assert r[i] == p[i];
      } else {
        assert '.' !in p[|p| - 1];
        assert forall x :: x in r[i] ==> x in p[|p| - 1] || x == c;
      }
    }
  }

  /** Splitting loses nothing: the parts hold no dot and join back to `s`. */
  lemma {:induction false} SplitParts(s: string)
    ensures NoDots(Split(s)) && Join(Split(s)) == s
    decreases |s|
  {
    if s != [] {
      var s' := s[..|s| - 1];
      var c := s[|s| - 1];
      SplitParts(s');
      var p := Split(s');
      assert s == s' + [c];
      if c == '.' {
        assert Split(s) == p + [""];
        assert (p + [""])[..|p|] == p;
        assert Join(p + [""]) == Join(p) + "." + "";
      } else {
        assert Split(s) == p[..|p| - 1] + [p[|p| - 1] + [c]];
        JoinExtendLast(p, [c]);
        NoDotsExtendLast(p, c);
      }
    }
  }

  /** Joining dot-free parts and splitting again gives the parts back. */
  lemma {:induction false} JoinSplit(parts: seq<string>)
    requires |parts| >= 1 && NoDots(parts)
    ensures Split(Join(parts)) == parts
    decreases |parts|
  {
    var last := parts[|parts| - 1];
    assert '.' !in last;
    if |parts| == 1 {
      SplitExtend([], last);
      assert [] + last == last;
      assert parts == [last];
    } else {
      var init := parts[..|parts| - 1];
      assert NoDots(init) by {
        forall i | 0 <= i < |init| ensures '.' !in init[i] {
          assert init[i] == parts[i];
        }
      }
      JoinSplit(init);
      SplitDot(Join(init), last);
      assert init + [last] == parts;
    }
  }

  /** The segment after the last '.', or the whole string when it has none. */
  function LastSegment(s: string): string
  {
    var parts := Split(s);
    parts[|parts| - 1]
  }

  /** The last segment is the longest dot-free tail of `s`. */
  lemma {:induction false} LastSegmentTail(s: string)
    ensures var t := LastSegment(s);
      && |t| <= |s| && s[|s| - |t|..] == t && '.' !in t
      && (|t| == |s| || s[|s| - |t| - 1] == '.')
    decreases |s|
  {
    if s != [] {
      var s' := s[..|s| - 1];
      var c := s[|s| - 1];
      LastSegmentTail(s');
      var t' := LastSegment(s');
      var t := LastSegment(s);
      if c != '.' {
        var p := Split(s');
        assert t == t' + [c];
        assert s[|s| - |t|..] == s'[|s'| - |t'|..] + [c];
        assert forall x :: x in t ==> x in t' || x == c;
        if |t| < |s| {
          assert s[|s| - |t| - 1] == s'[|s'| - |t'| - 1];
        }
      }
    }
  }

  predicate EndsWith(s: string, suffix: string)
  {
    |suffix| <= |s| && s[|s| - |suffix|..] == suffix
  }

  /** The last segment is "xlsx" exactly when the path is "xlsx" itself or
      ends in ".xlsx". */
  lemma LastSegmentXlsx(s: string)
    ensures LastSegment(s) == "xlsx" <==> s == "xlsx" || EndsWith(s, ".xlsx")
  {
    var n := |s|;
    if s == "xlsx" {
      SplitExtend([], s);
      assert [] + s == s && "" + s == s;
    } else if EndsWith(s, ".xlsx") {
      var a := s[..n - 5];
      assert s == a + "." + "xlsx";
      SplitDot(a, "xlsx");
    }
    if LastSegment(s) == "xlsx" {
      LastSegmentTail(s);
      if n > 4 {
        assert s[n - 5..] == [s[n - 5]] + s[n - 4..];
      }
    }
  }

  /** The save path as the form uses it: ".xlsx" appended unless its last
      '.'-separated segment is already "xlsx". */
  function WithXlsx(s: string): string
  {
    if LastSegment(s) != "xlsx" then s + ".xlsx" else s
  }

  /** An independent statement of the rule: a path that is "xlsx" or ends in
      ".xlsx" is kept, every other path gets ".xlsx" (so a path ending in
      ".XLSX", or one ending in "xlsx" with no dot before it, is extended). */
  lemma WithXlsxCases(s: string)
    ensures WithXlsx(s) == if s == "xlsx" || EndsWith(s, ".xlsx") then s else s + ".xlsx"
  {
    LastSegmentXlsx(s);
  }

  /** The rule always yields a path whose last segment is "xlsx", and applying
      it a second time changes nothing. */
  lemma WithXlsxIdempotent(s: string)
    ensures LastSegment(WithXlsx(s)) == "xlsx"
    ensures WithXlsx(WithXlsx(s)) == WithXlsx(s)
  {
    LastSegmentXlsx(s);
    var x := s + ".xlsx";
    assert x[|x| - 5..] == ".xlsx";
    LastSegmentXlsx(x);
  }

  /** --- Validation --- */

  /** What the form can learn about the machine: which paths name existing
      files, which name existing directories (with the tree below each), which
      carry the directory attribute, how the depth text parses as a 32-bit
      integer, and which save paths may be written. */
  datatype Environment = Environment(
    existingFiles: set<string>,
    directories: map<string, Directory>,
    directoryFlagged: set<string>,
    parse: string -> Option<int>,
    writable: set<string>)

  /** The checks that can stop a submission before the report runs. */
  datatype Rejection = MissingInput | OutputExists | NoSuchDirectory | NotADirectory | DepthNotANumber

  function RejectionMessage(r: Rejection): string
  {
    match r
    case MissingInput => "Nie podano wszystkich parametrów"
    case OutputExists => "Plik o takiej nazwie już istnieje!"
    case NoSuchDirectory => "Ten katalog nie istnieje!"
    case NotADirectory => "To plik, a nie katalog!"
    case DepthNotANumber => "Podana glebokosc nie jest liczba!"
  }

  function SavedMessage(savePath: string): string
  {
    "Pomyślnie utworzono plik!\n" + "Znajduje się on w pliku : " + savePath
  }

  function DeniedMessage(savePath: string): string
  {
    "Odmowa dostępu do pliku : " + savePath
  }

  /** What a submission decides before any scan: the first failing check, or
      a run with the normalised save path, the tree and the depth. */
  datatype Decision = Reject(reason: Rejection) | Run(savePath: string, directory: Directory, maxDepth: int)

  predicate AnyEmpty(savePath: string, path: string, depth: string)
  {
    savePath == [] || path == [] || depth == []
  }

  function Validate(savePath: string, path: string, depth: string, env: Environment): Decision
  {
    if AnyEmpty(savePath, path, depth) then Reject(MissingInput)
    else if WithXlsx(savePath) in env.existingFiles then Reject(OutputExists)
    else if path !in env.directories then Reject(NoSuchDirectory)
    else if path !in env.directoryFlagged then Reject(NotADirectory)
    else match env.parse(depth)
      case None => Reject(DepthNotANumber)
      case Some(d) => Run(WithXlsx(savePath), env.directories[path], d)
  }

  /** The checks run in a fixed order and the first one that fails decides;
      the report runs exactly when every check passes. */
  lemma FirstFailureWins(savePath: string, path: string, depth: string, env: Environment)
    ensures var v := Validate(savePath, path, depth, env);
      && (v == Reject(MissingInput) <==> AnyEmpty(savePath, path, depth))
      && (v == Reject(OutputExists) <==> !AnyEmpty(savePath, path, depth) && WithXlsx(savePath) in env.existingFiles)
      && (v == Reject(NoSuchDirectory) <==>
            !AnyEmpty(savePath, path, depth) && WithXlsx(savePath) !in env.existingFiles && path !in env.directories)
      && (v == Reject(NotADirectory) <==>
            !AnyEmpty(savePath, path, depth) && WithXlsx(savePath) !in env.existingFiles && path in env.directories
            && path !in env.directoryFlagged)
      && (v == Reject(DepthNotANumber) <==>
            !AnyEmpty(savePath, path, depth) && WithXlsx(savePath) !in env.existingFiles && path in env.directories
            && path in env.directoryFlagged && env.parse(depth).None?)
      && (v.Run? <==>
            !AnyEmpty(savePath, path, depth) && WithXlsx(savePath) !in env.existingFiles && path in env.directories
            && path in env.directoryFlagged && env.parse(depth).Some?)
      && (v.Run? ==>
            v.savePath == WithXlsx(savePath) && v.directory == env.directories[path]
            && env.parse(depth) == Some(v.maxDepth))
  {
  }

  /** A run always writes to a path ending in ".xlsx" (or named "xlsx"),
      never to one that already exists. */
  lemma RunTarget(savePath: string, path: string, depth: string, env: Environment)
    requires Validate(savePath, path, depth, env).Run?
    ensures var p := Validate(savePath, path, depth, env).savePath;
      (p == "xlsx" || EndsWith(p, ".xlsx")) && p !in env.existingFiles && |savePath| <= |p| && p[..|savePath|] == savePath
  {
    var p := WithXlsx(savePath);
    WithXlsxIdempotent(savePath);
    LastSegmentXlsx(p);
    WithXlsxCases(savePath);
  }

  /** --- The form --- */

  class MainWindow {
    var savePathText: string
    var pathText: string
    var depthText: string
    var textBox: string
    /** The report pipeline, with the dictionaries every submission shares. */
    const program: Program

    constructor (program: Program)
      ensures this.program == program
      ensures savePathText == "" && pathText == "" && depthText == "" && textBox == ""
    {
      this.program := program;
      savePathText, pathText, depthText, textBox := "", "", "", "";
    }

    /** The submit handler.  The save field is normalised in place as soon as
        all three fields are filled, even when a later check fails.  A failed
        check shows its message and leaves the dictionaries alone; a run shows
        the success or access-denied message, or, when the report throws,
        returns the reason with the label untouched. */
    method StartExecution(env: Environment) returns (escaped: Option<Abort>)
      requires program.Valid()
      modifies this, program
      ensures program.Valid()
      ensures pathText == old(pathText) && depthText == old(depthText)
      ensures savePathText == if AnyEmpty(old(savePathText), pathText, depthText) then old(savePathText) else WithXlsx(old(savePathText))
      ensures Validate(old(savePathText), pathText, depthText, env).Reject? ==>
        && textBox == RejectionMessage(Validate(old(savePathText), pathText, depthText, env).reason)
        && escaped == None
        && program.fileSizes == old(program.fileSizes)
        && program.extensionsStats == old(program.extensionsStats)
        && program.extensionOrder == old(program.extensionOrder)
      ensures Validate(old(savePathText), pathText, depthText, env).Run? ==>
        var v := Validate(old(savePathText), pathText, depthText, env);
        var outcome := RunOutcome(old(program.fileSizes), v.directory, v.maxDepth, v.savePath in env.writable);
        && savePathText == v.savePath
        && escaped == (if outcome.Aborted? then Some(outcome.reason) else None)
        && textBox == (match outcome
                       case Saved => SavedMessage(v.savePath)
                       case AccessDenied => DeniedMessage(v.savePath)
                       case Aborted(_) => old(textBox))
        && (Fresh(Keys(old(program.fileSizes)), Visited(v.directory, v.maxDepth)) ==>
              && program.fileSizes == old(program.fileSizes) + Entries(Visited(v.directory, v.maxDepth))
              && program.extensionsStats == Tally(old(program.extensionsStats), Visited(v.directory, v.maxDepth))
              && program.extensionOrder == Order(old(program.extensionOrder), Visited(v.directory, v.maxDepth)))
    {
      if |savePathText| == 0 || |pathText| == 0 || |depthText| == 0 {
        textBox := RejectionMessage(MissingInput);
        return None;
      }
      var parts := Split(savePathText);
      if parts[|parts| - 1] != "xlsx" {
        savePathText := savePathText + ".xlsx";
      }
      ghost var decision := Validate(old(savePathText), pathText, depthText, env);
      assert savePathText == WithXlsx(old(savePathText));
      if savePathText in env.existingFiles {
        assert decision == Reject(OutputExists);
        textBox := RejectionMessage(OutputExists);
        return None;
      }
      if pathText !in env.directories {
        assert decision == Reject(NoSuchDirectory);
        textBox := RejectionMessage(NoSuchDirectory);
        return None;
      }
      if pathText !in env.directoryFlagged {
        assert decision == Reject(NotADirectory);
        textBox := RejectionMessage(NotADirectory);
        return None;
      }
      var maxDepth := env.parse(depthText);
      if maxDepth.None? {
        assert decision == Reject(DepthNotANumber);
        textBox := RejectionMessage(DepthNotANumber);
        return None;
      }
      assert decision == Run(savePathText, env.directories[pathText], maxDepth.value);
      escaped := RunReport(env.directories[pathText], maxDepth.value, savePathText in env.writable);
    }

    /** The end of the handler: runs the report on the checked inputs and
        shows the success or access-denied message with the save field's
        path; when the report throws, the label is left as it was. */
    method RunReport(directory: Directory, maxDepth: int, saveAllowed: bool) returns (escaped: Option<Abort>)
      requires program.Valid()
      modifies this`textBox, program
      ensures program.Valid()
      ensures var outcome := RunOutcome(old(program.fileSizes), directory, maxDepth, saveAllowed);
        && escaped == (if outcome.Aborted? then Some(outcome.reason) else None)
        && textBox == (match outcome
                       case Saved => SavedMessage(savePathText)
                       case AccessDenied => DeniedMessage(savePathText)
                       case Aborted(_) => old(textBox))
      ensures Fresh(Keys(old(program.fileSizes)), Visited(directory, maxDepth)) ==>
        && program.fileSizes == old(program.fileSizes) + Entries(Visited(directory, maxDepth))
        && program.extensionsStats == Tally(old(program.extensionsStats), Visited(directory, maxDepth))
        && program.extensionOrder == Order(old(program.extensionOrder), Visited(directory, maxDepth))
    {
      var outcome, _, _ := program.CreateExcel(directory, maxDepth, saveAllowed);
      match outcome {
        case Saved =>
          textBox := SavedMessage(savePathText);
          escaped := None;
        case AccessDenied =>
          textBox := DeniedMessage(savePathText);
          escaped := None;
        case Aborted(reason) =>
          escaped := Some(reason);
      }
    }
  }
}
