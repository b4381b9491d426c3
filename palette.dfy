/** The slash-command palette: the commands offered for the text typed after a slash. */
module SlashCommands {
  import opened Common

  /** A palette entry; `labelKey` is looked up through the translation function. */
  datatype Command = Command(id: string, labelKey: string, action: string)

  /** A command is offered when the query, lower-cased, stands in its lower-cased
      translated label or in its lower-cased id. */
  predicate Matches(c: Command, query: string, translate: string -> string) {
    || Contains(ToLower(translate(c.labelKey)), ToLower(query))
    || Contains(ToLower(c.id), ToLower(query))
  }

  /** The palette's `filteredCommands`: the matching commands, in their order, each as
      often as it is listed. */
  function FilterCommands(commands: seq<Command>, query: string, translate: string -> string): (r: seq<Command>)
    ensures |r| <= |commands|
    ensures IsSubsequence(r, commands)
    ensures forall c :: c in r <==> c in commands && Matches(c, query, translate)
    ensures forall c :: multiset(r)[c] == if Matches(c, query, translate) then multiset(commands)[c] else 0
  {
    if commands == [] then []
    else
      var rest := FilterCommands(commands[1..], query, translate);
      assert commands == [commands[0]] + commands[1..];
      if Matches(commands[0], query, translate) then [commands[0]] + rest else rest
  }

  /** An empty query offers every command. */
  lemma {:induction false} EmptyQueryKeepsAll(commands: seq<Command>, translate: string -> string)
    ensures FilterCommands(commands, "", translate) == commands
  {
    if commands != [] {
      assert ToLower("") == "";
      ContainsEmpty(ToLower(commands[0].id));
      assert Matches(commands[0], "", translate);
      EmptyQueryKeepsAll(commands[1..], translate);
      assert commands == [commands[0]] + commands[1..];
    }
  }

  /** The filter ignores letter case in the query. */
  lemma {:induction false} QueryCaseIgnored(commands: seq<Command>, query: string, translate: string -> string)
    ensures FilterCommands(commands, ToLower(query), translate) == FilterCommands(commands, query, translate)
  {
    ToLowerIdempotent(query);
    if commands != [] {
      QueryCaseIgnored(commands[1..], query, translate);
    }
  }
}
