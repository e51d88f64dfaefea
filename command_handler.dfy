/**
 * TaskTrackerCLI/Services/CommandHandler.cs: turns the process arguments
 * into an outcome. The command token loses its hyphens, is matched without
 * regard to case against the names of the `Command` enum, and the matching
 * handler checks how many arguments follow. The handlers only echo their
 * arguments; they do not call the todo operations.
 */
module CommandHandling {
  import opened Wrappers
  import opened DotNet

  datatype Command = Add | Update | Delete | List | MarkInProgress | MarkDone

  /** The enum member names. */
  function Name(c: Command): string {
    match c
    case Add => "Add"
    case Update => "Update"
    case Delete => "Delete"
    case List => "List"
    case MarkInProgress => "MarkInProgress"
    case MarkDone => "MarkDone"
  }

  /** The spellings the command line documents. */
  function CliName(c: Command): string {
    match c
    case Add => "add"
    case Update => "update"
    case Delete => "delete"
    case List => "list"
    case MarkInProgress => "mark-in-progress"
    case MarkDone => "mark-done"
  }

  /** `s.Replace("-", "")`: `s` with every hyphen taken out. */
  function RemoveHyphens(s: string): (r: string)
    ensures '-' !in r
    ensures |r| <= |s|
  {
    if s == [] then [] else (if s[0] == '-' then [] else [s[0]]) + RemoveHyphens(s[1..])
  }

  /** The token `Execute` matches: hyphens are removed only from a token that contains one. */
  function CanonicalToken(token: string): (r: string)
    ensures '-' !in r
    ensures '-' !in token ==> r == token
    ensures |r| <= |token|
  {
    if '-' in token then RemoveHyphens(token) else token
  }

  lemma {:induction false} RemoveHyphensConcat(a: string, b: string)
    ensures RemoveHyphens(a + b) == RemoveHyphens(a) + RemoveHyphens(b)
  {
    if a == [] {
      assert a + b == b;
    } else {
      assert (a + b)[0] == a[0] && (a + b)[1..] == a[1..] + b;
      RemoveHyphensConcat(a[1..], b);
    }
  }

  lemma {:induction false} RemoveHyphensKeepsOthers(s: string)
    requires '-' !in s
    ensures RemoveHyphens(s) == s
  {
    if s != [] {
      assert s[0] in s;
      assert '-' !in s[1..] by {
        forall i | 0 <= i < |s| - 1 ensures s[1..][i] != '-' {
          assert s[1..][i] == s[i + 1];
        }
      }
      RemoveHyphensKeepsOthers(s[1..]);
    }
  }

  /** Skipping the replacement for a token without hyphens changes nothing: the token is always stripped of them. */
  lemma CanonicalTokenRemovesHyphens(token: string)
    ensures CanonicalToken(token) == RemoveHyphens(token)
  {
    if '-' !in token {
      RemoveHyphensKeepsOthers(token);
    }
  }

  /**
   * `Enum.TryParse<Command>(token, true, out command)` for tokens made of a
   * member name: the member whose name equals the token ignoring case.
   */
  function ParseCommand(token: string): (r: Option<Command>)
    ensures r.Some? ==> |token| == |Name(r.value)|
    ensures r.Some? ==> forall i :: 0 <= i < |token| ==> 'A' <= FoldCase(token[i]) <= 'Z'
  {
    var folded := FoldCaseString(token);
    if folded == "ADD" then Some(Add)
    else if folded == "UPDATE" then Some(Update)
    else if folded == "DELETE" then Some(Delete)
    else if folded == "LIST" then Some(List)
    else if folded == "MARKINPROGRESS" then Some(MarkInProgress)
    else if folded == "MARKDONE" then Some(MarkDone)
    else None
  }

  lemma FoldedName(c: Command)
    ensures FoldCaseString(Name(c)) == match c
      case Add => "ADD"
      case Update => "UPDATE"
      case Delete => "DELETE"
      case List => "LIST"
      case MarkInProgress => "MARKINPROGRESS"
      case MarkDone => "MARKDONE"
  {
  }

  /** A token selects a command exactly when it equals that command's name, ignoring case. */
  lemma ParseCommandMatchesName(token: string, c: Command)
    ensures ParseCommand(token) == Some(c) <==> EqualsIgnoreCase(token, Name(c))
  {
    EqualsIgnoreCaseFolded(token, Name(c));
    FoldedName(c);
  }

  /** The arguments each handler requires: two for update, one for every other command. */
  function Arity(c: Command): (r: nat)
    ensures r == 2 <==> c == Update
    ensures r == 1 <==> c != Update
  {
    if c == Update then 2 else 1
  }

  datatype Outcome =
    | NoCommand
    | Unknown(token: string)
    | WrongArity(command: Command, parameters: seq<string>)
    | Handled(command: Command, parameters: seq<string>)

  /** `HandleAdd` … `HandleMarkDone`: the count check each handler makes before echoing. */
  function Handle(c: Command, parameters: seq<string>): (r: Outcome)
    ensures r.Handled? || r.WrongArity?
    ensures r.command == c && r.parameters == parameters
    ensures r.Handled? <==> |parameters| == Arity(c)
  {
    if |parameters| != Arity(c) then WrongArity(c, parameters) else Handled(c, parameters)
  }

  /**
   * `Execute`: no arguments is "no command"; a token that names no command is
   * reported as given; otherwise the selected handler gets exactly the
   * remaining arguments, in order, and accepts them only in the right number.
   */
  function Execute(args: seq<string>): (o: Outcome)
    ensures args == [] <==> o == NoCommand
    ensures o.Unknown? <==> args != [] && ParseCommand(RemoveHyphens(args[0])).None?
    ensures o.Unknown? ==> o.token == args[0]
    ensures o.Handled? || o.WrongArity? ==>
              args != [] && ParseCommand(RemoveHyphens(args[0])) == Some(o.command) && o.parameters == args[1..]
    ensures o.Handled? ==> |o.parameters| == Arity(o.command)
    ensures o.WrongArity? ==> |o.parameters| != Arity(o.command)
  {
    if args == [] then NoCommand
    else
      var commandStr := CanonicalToken(args[0]);
      CanonicalTokenRemovesHyphens(args[0]);
      match ParseCommand(commandStr)
      case Some(c) => Handle(c, args[1..])
      case None => Unknown(args[0])
  }

  /** Where hyphens go and how letters are cased does not matter, except in the echo of an unknown token. */
  lemma SameCommandWhenEqualIgnoringHyphensAndCase(a: string, b: string, rest: seq<string>)
    requires EqualsIgnoreCase(RemoveHyphens(a), RemoveHyphens(b))
    ensures Execute([a] + rest).Unknown? <==> Execute([b] + rest).Unknown?
    ensures !Execute([a] + rest).Unknown? ==> Execute([a] + rest) == Execute([b] + rest)
  {
    EqualsIgnoreCaseFolded(RemoveHyphens(a), RemoveHyphens(b));
    assert ParseCommand(RemoveHyphens(a)) == ParseCommand(RemoveHyphens(b));
    assert ([a] + rest)[1..] == rest && ([b] + rest)[1..] == rest;
  }

  /** A hyphen anywhere in the token is ignored. */
  lemma HyphenIgnored(a: string, b: string, rest: seq<string>)
    ensures Execute([a + "-" + b] + rest).Unknown? <==> Execute([a + b] + rest).Unknown?
    ensures !Execute([a + b] + rest).Unknown? ==> Execute([a + "-" + b] + rest) == Execute([a + b] + rest)
  {
    RemoveHyphensConcat(a + "-", b);
    RemoveHyphensConcat(a, "-");
    RemoveHyphensConcat(a, b);
    assert RemoveHyphens("-") == [];
    assert RemoveHyphens(a + "-") == RemoveHyphens(a);
    SameCommandWhenEqualIgnoringHyphensAndCase(a + "-" + b, a + b, rest);
  }

  lemma RemoveInnerHyphen(a: string, b: string)
    ensures RemoveHyphens(a + "-" + b) == RemoveHyphens(a) + RemoveHyphens(b)
  {
    var hyphen := "-";
    assert RemoveHyphens(hyphen) == [] by {
      assert hyphen[0] == '-' && hyphen[1..] == [];
    }
    RemoveHyphensConcat(a, hyphen);
    assert RemoveHyphens(a + hyphen) == RemoveHyphens(a);
    RemoveHyphensConcat(a + hyphen, b);
  }

  lemma RemoveHyphenBetween(a: string, b: string)
    requires '-' !in a && '-' !in b
    ensures RemoveHyphens(a + "-" + b) == a + b
  {
    RemoveInnerHyphen(a, b);
    RemoveHyphensKeepsOthers(a);
    RemoveHyphensKeepsOthers(b);
  }

  lemma RemoveInnerHyphens(a: string, b: string, c: string)
    requires '-' !in a && '-' !in b && '-' !in c
    ensures RemoveHyphens(a + "-" + b + "-" + c) == a + b + c
  {
    RemoveInnerHyphen(a, b);
    RemoveInnerHyphen(a + "-" + b, c);
    RemoveHyphensKeepsOthers(a);
    RemoveHyphensKeepsOthers(b);
    RemoveHyphensKeepsOthers(c);
  }

  /** A documented spelling without its hyphens. */
  function CompactName(c: Command): string {
    match c
    case Add => "add"
    case Update => "update"
    case Delete => "delete"
    case List => "list"
    case MarkInProgress => "markinprogress"
    case MarkDone => "markdone"
  }

  lemma StripMarkInProgress()
    ensures RemoveHyphens("mark-in-progress") == "markinprogress"
  {
    var s := "mark" + "-" + "in" + "-" + "progress";
    RemoveInnerHyphens("mark", "in", "progress");
    assert RemoveHyphens(s) == "markinprogress";
    assert s == "mark-in-progress";
  }

  lemma StripUpperMarkInProgress()
    ensures RemoveHyphens("MARK-IN-PROGRESS") == "MARKINPROGRESS"
  {
    var s := "MARK" + "-" + "IN" + "-" + "PROGRESS";
    RemoveInnerHyphens("MARK", "IN", "PROGRESS");
    assert RemoveHyphens(s) == "MARKINPROGRESS";
    assert s == "MARK-IN-PROGRESS";
  }

  lemma StripMarkDone()
    ensures RemoveHyphens("mark-done") == "markdone"
  {
    var s := "mark" + "-" + "done";
    RemoveHyphenBetween("mark", "done");
    assert RemoveHyphens(s) == "markdone";
    assert s == "mark-done";
  }

  lemma StrippedCliName(c: Command)
    ensures RemoveHyphens(CliName(c)) == CompactName(c)
  {
    match c
    case MarkInProgress => StripMarkInProgress();
    case MarkDone => StripMarkDone();
    case Add => RemoveHyphensKeepsOthers("add");
    case Update => RemoveHyphensKeepsOthers("update");
    case Delete => RemoveHyphensKeepsOthers("delete");
    case List => RemoveHyphensKeepsOthers("list");
  }

  lemma CompactNameSelects(c: Command)
    ensures ParseCommand(CompactName(c)) == Some(c)
  {
    match c
    case Add => assert FoldCaseString("add") == "ADD";
    case Update => assert FoldCaseString("update") == "UPDATE";
    case Delete =>
      assert FoldCaseString("delete") == "DELETE";
      assert "DELETE"[0] != "UPDATE"[0];
    case List => assert FoldCaseString("list") == "LIST";
    case MarkInProgress => assert FoldCaseString("markinprogress") == "MARKINPROGRESS";
    case MarkDone => assert FoldCaseString("markdone") == "MARKDONE";
  }

  /** Every documented spelling selects its command. */
  lemma CliNamesSelect(c: Command)
    ensures ParseCommand(RemoveHyphens(CliName(c))) == Some(c)
  {
    StrippedCliName(c);
    CompactNameSelects(c);
  }

  /** `mark-in-progress`, `markinprogress` and `MARK-IN-PROGRESS` all select MarkInProgress. */
  lemma MarkInProgressSpellings()
    ensures ParseCommand(RemoveHyphens("mark-in-progress")) == Some(MarkInProgress)
    ensures ParseCommand(RemoveHyphens("markinprogress")) == Some(MarkInProgress)
    ensures ParseCommand(RemoveHyphens("MARK-IN-PROGRESS")) == Some(MarkInProgress)
  {
    StripMarkInProgress();
    StripUpperMarkInProgress();
    RemoveHyphensKeepsOthers("markinprogress");
    CompactNameSelects(MarkInProgress);
    FoldedName(MarkInProgress);
    UpperCaseSelects(MarkInProgress);
  }

  /** Every command's name written in capitals selects that command. */
  lemma UpperCaseSelects(c: Command)
    ensures ParseCommand(FoldCaseString(Name(c))) == Some(c)
  {
    FoldedName(c);
    ParseCommandMatchesName(FoldCaseString(Name(c)), c);
    EqualsIgnoreCaseFolded(FoldCaseString(Name(c)), Name(c));
  }

  // ---------------------------------------------------------------------------
  // Console output

  function ArityMessage(c: Command): string {
    match c
    case Add => "'add' command requires exactly 1 parameter."
    case Update => "'update' command requires exactly 2 parameters."
    case Delete => "'delete' command requires exactly 1 parameter."
    case List => "'list' command requires exactly 1 parameter."
    case MarkInProgress => "'mark-in-progress' command requires exactly 1 parameter."
    case MarkDone => "'mark-done' command requires exactly 1 parameter."
  }

  function Heading(c: Command): string {
    match c
    case Add => "Handling add command with parameters:"
    case Update => "Handling update command with parameters:"
    case Delete => "Handling delete command with parameters:"
    case List => "Handling list command with parameters:"
    case MarkInProgress => "Handling mark in progress command with parameters:"
    case MarkDone => "Handling mark done command with parameters:"
  }

  /** The `foreach` that prints each parameter on its own tab-indented line. */
  function Echo(parameters: seq<string>): (lines: seq<string>)
    ensures |lines| == |parameters|
    ensures forall k :: 0 <= k < |parameters| ==> lines[k] == "\t" + parameters[k]
  {
    if parameters == [] then [] else ["\t" + parameters[0]] + Echo(parameters[1..])
  }

  /**
   * The lines `Execute` prints: one message for every outcome except a
   * handled command, which prints its heading and then its parameters in
   * order.
   */
  function Output(o: Outcome): (lines: seq<string>)
    ensures !o.Handled? ==> |lines| == 1
    ensures o.Handled? ==> |lines| == |o.parameters| + 1
    ensures o.Handled? ==> forall k :: 0 <= k < |o.parameters| ==> lines[k + 1] == "\t" + o.parameters[k]
  {
    match o
    case NoCommand => ["No command provided."]
    case Unknown(token) => ["Unknown command has been parsed: " + token]
    case WrongArity(c, _) => [ArityMessage(c)]
    case Handled(c, parameters) => [Heading(c)] + Echo(parameters)
  }
}
