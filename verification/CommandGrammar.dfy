/**
 * The command language as a grammar: trees by level, from `&` (loosest) over `;`, `||`, `&&`
 * and `|` down to simple commands and parenthesised lists, with their printed words and the
 * command tree each stands for.
 */
module CommandGrammar {
  import opened Wrappers
  import opened CommandSyntax

  datatype Item =
    | Word(w: Token)
    | In(twice: bool, file: Token)                              // < file, << file
    | Out(twice: bool, stderr: bool, bang: bool, file: Token)   // > file, >> file, >& file, >! file ...
    | Args(inner: seq<Token>)                                   // ( ... ) after a keyword

  datatype Cmd3 = Words(items: seq<Item>) | Group(pre: seq<Item>, body: Cmd0, post: seq<Item>)
  datatype Cmd2 = Only3(c: Cmd3) | PipeTo(c: Cmd3, both: bool, rest: Cmd2)
  datatype Cmd1b = Only2(c: Cmd2) | AndThen(c: Cmd2, rest: Cmd1b)
  datatype Cmd1a = Only1b(c: Cmd1b) | OrElse(c: Cmd1b, rest: Cmd1a)
  /** Separators may be repeated; without a rest they end the list. */
  datatype Cmd1 = Only1a(c: Cmd1a) | Then(c: Cmd1a, seps: seq<Token>, rest: Option<Cmd1>)
  datatype Cmd0 = Only1(c: Cmd1) | Amp(c: Cmd1, seps: seq<Token>, rest: Option<Cmd0>)

  // ---------- printing ----------

  function PrintItem(i: Item): seq<Token>
  {
    match i
    case Word(w) => [w]
    case In(twice, file) => [if twice then "<<" else "<", file]
    case Out(twice, stderr, bang, file) =>
      [if twice then ">>" else ">"] + (if stderr then ["&"] else []) + (if bang then ["!"] else []) + [file]
    case Args(inner) => ["("] + inner + [")"]
  }

  function PrintItems(items: seq<Item>): seq<Token>
  {
    if items == [] then [] else PrintItem(items[0]) + PrintItems(items[1..])
  }

  function Print3(c: Cmd3): seq<Token>
  {
    match c
    case Words(items) => PrintItems(items)
    case Group(pre, body, post) => PrintItems(pre) + (["("] + (Print0(body) + ([")"] + PrintItems(post))))
  }

  function Print2(c: Cmd2): seq<Token>
  {
    match c
    case Only3(a) => Print3(a)
    case PipeTo(a, both, rest) => Print3(a) + ((if both then ["|", "&"] else ["|"]) + Print2(rest))
  }

  function Print1b(c: Cmd1b): seq<Token>
  {
    match c
    case Only2(a) => Print2(a)
    case AndThen(a, rest) => Print2(a) + (["&&"] + Print1b(rest))
  }

  function Print1a(c: Cmd1a): seq<Token>
  {
    match c
    case Only1b(a) => Print1b(a)
    case OrElse(a, rest) => Print1b(a) + (["||"] + Print1a(rest))
  }

  function Print1(c: Cmd1): seq<Token>
  {
    match c
    case Only1a(a) => Print1a(a)
    case Then(a, seps, rest) => Print1a(a) + (seps + (if rest.None? then [] else Print1(rest.value)))
  }

  function Print0(c: Cmd0): seq<Token>
  {
    match c
    case Only1(a) => Print1(a)
    case Amp(a, seps, rest) => Print1(a) + ((["&"] + seps) + (if rest.None? then [] else Print0(rest.value)))
  }

  // ---------- well-formed trees ----------

  predicate Plain(w: Token)
  {
    |w| > 0 && w[0] !in {'(', ')', '<', '>', '|', '&', ';', '\n'}
  }

  /** The paren depth after walking over words; None if it ever gets negative. */
  function Walk(toks: seq<Token>, l: int): Option<int>
  {
    if l < 0 then None else if toks == [] then Some(l) else Walk(toks[1..], ParenStep(toks[0], l))
  }

  predicate Balanced(toks: seq<Token>) { Walk(toks, 0) == Some(0) }

  predicate IsWord(i: Item) { i.Word? || i.Args? }

  /** The words, redirections and flags gathered from items. */
  datatype Acc = Acc(words: seq<Token>, lef: Option<Token>, rit: Option<Token>, flags: set<Flag>)

  function AddItem(a: Acc, i: Item): Acc
  {
    match i
    case Word(w) => a.(words := a.words + [w])
    case Args(inner) => a.(words := a.words + (["("] + inner + [")"]))
    case In(twice, file) => a.(lef := Some(file), flags := a.flags + if twice then {Read} else {})
    case Out(twice, stderr, bang, file) =>
      a.(rit := Some(file), flags := a.flags + (if twice then {Append} else {}) +
                                     (if stderr then {Stderr} else {}) + (if bang then {Overwrite} else {}))
  }

  function AddItems(a: Acc, items: seq<Item>): Acc
    decreases |items|
  {
    if items == [] then a else AddItems(AddItem(a, items[0]), items[1..])
  }

  /** The redirection rules: one input, none into a pipe's reader, no here-document in parentheses;
      a pipe's writer has no output redirection, except one of its standard output after |&. */
  predicate ItemOk(i: Item, m: Mode, special: bool, a: Acc)
  {
    match i
    case Word(w) => Plain(w)
    case Args(inner) => special && Balanced(inner)
    case In(twice, file) => Plain(file) && !m.pin && a.lef.None? && !(m.here && twice)
    case Out(_, stderr, bang, file) =>
      && Plain(file) && (file != "!" || bang)
      && (m.pout || m.perr ==> !stderr) && (m.pout ==> m.perr && a.rit.None?)
  }

  predicate ItemsOk(items: seq<Item>, m: Mode, special: bool, a: Acc)
  {
    items == [] || (ItemOk(items[0], m, special, a) && ItemsOk(items[1..], m, special, AddItem(a, items[0])))
  }

  function Start(nofork: bool): Acc { Acc([], None, None, if nofork then {NoFork} else {}) }

  /** Parentheses are arguments after these words, and after them behind any number of else. */
  predicate Leads(items: seq<Item>)
  {
    items != [] && items[0].Word? &&
    if items[0].w == "else" then Leads(items[1..])
    else items[0].w in {"exit", "foreach", "if", "@", "set", "switch", "while"}
  }

  predicate Ok3(c: Cmd3, m: Mode)
  {
    match c
    case Words(items) =>
      && (exists k | 0 <= k < |items| :: IsWord(items[k]))
      && ItemsOk(items, m, Leads(items), Start(false))
    case Group(pre, body, post) =>
      && (forall k | 0 <= k < |pre| :: !IsWord(pre[k])) && (forall k | 0 <= k < |post| :: !IsWord(post[k]))
      && ItemsOk(pre, m, false, Start(false)) && ItemsOk(post, m, false, AddItems(Start(false), pre))
      && Ok0(body, Mode(true, false, false, false))
  }

  predicate Ok2(c: Cmd2, m: Mode)
  {
    match c
    case Only3(a) => Ok3(a, m)
    case PipeTo(a, both, rest) => Ok3(a, m.(pout := true, perr := m.perr || both)) && Ok2(rest, m.(pin := true))
  }

  predicate Ok1b(c: Cmd1b, m: Mode)
  {
    match c
    case Only2(a) => Ok2(a, m)
    case AndThen(a, rest) => Ok2(a, m) && Ok1b(rest, m)
  }

  predicate Ok1a(c: Cmd1a, m: Mode)
  {
    match c
    case Only1b(a) => Ok1b(a, m)
    case OrElse(a, rest) => Ok1b(a, m) && Ok1a(rest, m)
  }

  /** After a separator syntax skips every word that starts like one, also an &&. */
  predicate Skipped(w: Token) { w == ";" || w == "\n" || w == "&&" }

  predicate Ok1(c: Cmd1, m: Mode)
  {
    match c
    case Only1a(a) => Ok1a(a, m)
    case Then(a, seps, rest) =>
      && Ok1a(a, m) && seps != [] && seps[0] != "&&" && (forall k | 0 <= k < |seps| :: Skipped(seps[k]))
      && (rest.Some? ==> Ok1(rest.value, m))
  }

  predicate Ok0(c: Cmd0, m: Mode)
  {
    match c
    case Only1(a) => Ok1(a, m)
    case Amp(a, seps, rest) =>
      && Ok1(a, m) && (forall k | 0 <= k < |seps| :: Skipped(seps[k]) || seps[k] == "&")
      && (rest.Some? ==> Ok0(rest.value, m))
  }

  // ---------- the command tree of a grammar tree ----------

  /** `nofork` says that the word after the command is a closing parenthesis. */
  function Tree3(c: Cmd3, nofork: bool): Command
  {
    match c
    case Words(items) =>
      var a := AddItems(Start(nofork), items);
      Simple(a.words, a.lef, a.rit, a.flags)
    case Group(pre, body, post) =>
      var a := AddItems(AddItems(Start(nofork), pre), post);
      Paren(Some(Tree0(body, true)), a.lef, a.rit, a.flags)
  }

  function Tree2(c: Cmd2, nofork: bool): Command
  {
    match c
    case Only3(a) => Tree3(a, nofork)
    case PipeTo(a, both, rest) => Pipe(Tree3(a, false), Tree2(rest, nofork), if both then {Stderr} else {})
  }

  function Tree1b(c: Cmd1b, nofork: bool): Command
  {
    match c
    case Only2(a) => Tree2(a, nofork)
    case AndThen(a, rest) => And(Tree2(a, false), Tree1b(rest, nofork), {})
  }

  function Tree1a(c: Cmd1a, nofork: bool): Command
  {
    match c
    case Only1b(a) => Tree1b(a, nofork)
    case OrElse(a, rest) => Or(Tree1b(a, false), Tree1a(rest, nofork), {})
  }

  /** A trailing separator leaves a list with an empty left side. */
  function Tree1(c: Cmd1, nofork: bool): Command
  {
    match c
    case Only1a(a) => Tree1a(a, nofork)
    case Then(a, _, rest) =>
      if rest.None? then List(None, Some(Tree1a(a, false)), {})
      else List(Some(Tree1a(a, false)), Some(Tree1(rest.value, nofork)), {})
  }

  function Tree0(c: Cmd0, nofork: bool): Command
  {
    match c
    case Only1(a) => Tree1(a, nofork)
    case Amp(a, _, rest) =>
      List(Some(AmpTree(a)), if rest.None? then None else Some(Tree0(rest.value, nofork)), {})
  }

  /** The tree of what an & sends to the background: one command, group or pipeline is marked, anything else
      goes into a marked group of its own. */
  function AmpTree(c: Cmd1): Command
    decreases c, true
  {
    if c.Only1a? && c.c.Only1b? && c.c.c.Only2? then
      match c.c.c.c
      case Only3(Words(items)) =>
        var a := AddItems(Start(false), items);
        Simple(a.words, a.lef, a.rit, a.flags + {Ampersand, NoInterrupt})
      case Only3(Group(pre, body, post)) =>
        var a := AddItems(AddItems(Start(false), pre), post);
        Paren(Some(Tree0(body, true)), a.lef, a.rit, a.flags + {Ampersand, NoInterrupt})
      case PipeTo(a, both, rest) =>
        Pipe(Tree3(a, false), Tree2(rest, false), (if both then {Stderr} else {}) + {Ampersand, NoInterrupt})
    else Paren(Some(Tree1(c, false)), None, None, {Ampersand, NoInterrupt})
  }
}
