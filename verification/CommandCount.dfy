/** What the counting pass of syn3 comes to: the words, and one for each & and ! of an output redirection. */
module CommandCount {
  import opened Sequences
  import opened CommandSyntax
  import opened CommandGrammar
  import opened CommandParser

  function Counted(items: seq<Item>): nat
  {
    if items == [] then 0
    else
      (match items[0]
       case Word(_) => 1
       case Args(inner) => |inner| + 2
       case In(_, _) => 0
       case Out(_, stderr, bang, _) => (if stderr then 1 else 0) + (if bang then 1 else 0)) + Counted(items[1..])
  }

  lemma {:induction false} CountsInner(toks: seq<Token>, p: nat, inner: seq<Token>, l: int)
    requires At(toks, p, inner) && l >= 1 && Walk(inner, l - 1).Some?
    ensures p + |inner| <= |toks|
    ensures CountFrom(toks, p, l, true) ==
            |inner| + CountFrom(toks, p + |inner|, Walk(inner, l - 1).value + 1, true)
    decreases |inner|
  {
    hide At;
    AtBound(toks, p, inner);
    if inner != [] {
      AtIndex(toks, p, inner, 0);
      assert inner == [inner[0]] + inner[1..];
      AtParts(toks, p, [inner[0]], inner[1..]);
      CountsInner(toks, p + 1, inner[1..], ParenStep(inner[0], l));
    }
  }

  lemma {:induction false} CountsArgs(toks: seq<Token>, p: nat, inner: seq<Token>)
    requires At(toks, p, ["("] + inner + [")"]) && Balanced(inner)
    ensures p + |inner| + 2 <= |toks|
    ensures CountFrom(toks, p, 0, true) == |inner| + 2 + CountFrom(toks, p + |inner| + 2, 0, true)
  {
    hide At, Walk;
    AtParts(toks, p, ["("] + inner, [")"]);
    AtParts(toks, p, ["("], inner);
    AtIndex(toks, p, ["("], 0);
    AtIndex(toks, p + 1 + |inner|, [")"], 0);
    CountsInner(toks, p + 1, inner, 1);
  }

  lemma {:induction false} CountsIn(toks: seq<Token>, p: nat, op: Token, file: Token, special: bool)
    requires At(toks, p, [op, file]) && (op == "<" || op == "<<") && Plain(file)
    ensures p + 2 <= |toks| && CountFrom(toks, p, 0, special) == CountFrom(toks, p + 2, 0, special)
  {
    AtBound(toks, p, [op, file]);
    AtIndex(toks, p, [op, file], 0);
    AtIndex(toks, p, [op, file], 1);
  }

  lemma {:induction false} CountsOut(toks: seq<Token>, p: nat, i: Item, special: bool)
    requires i.Out? && At(toks, p, PrintItem(i)) && Plain(i.file)
    ensures p + |PrintItem(i)| <= |toks|
    ensures CountFrom(toks, p, 0, special) ==
            (if i.stderr then 1 else 0) + (if i.bang then 1 else 0) + CountFrom(toks, p + |PrintItem(i)|, 0, special)
  {
    hide At, CountFrom;
    var w := PrintItem(i);
    AtBound(toks, p, w);
    forall k | 0 <= k < |w| ensures toks[p + k] == w[k] { AtIndex(toks, p, w, k); }
    CountsWord(toks, p, special);
    CountsWord(toks, p + 1, special);
    if |w| > 2 { CountsWord(toks, p + 2, special); }
    if |w| > 3 { CountsWord(toks, p + 3, special); }
  }

  /** One word outside parentheses. */
  lemma {:induction false} CountsWord(toks: seq<Token>, p: nat, special: bool)
    requires p < |toks| && C0(toks[p]) != '(' && C0(toks[p]) != ')'
    ensures CountFrom(toks, p, 0, special) == CountOne(toks, p, 0, special) + CountFrom(toks, p + 1, 0, special)
  {
  }

  lemma {:induction false} CountsItem(toks: seq<Token>, p: nat, i: Item, m: Mode, special: bool, a: Acc)
    requires At(toks, p, PrintItem(i)) && ItemOk(i, m, special, a)
    ensures p + |PrintItem(i)| <= |toks|
    ensures CountFrom(toks, p, 0, special) == Counted([i]) + CountFrom(toks, p + |PrintItem(i)|, 0, special)
  {
    assert [i][1..] == [] && Counted([]) == 0;
    match i
    case Word(w) => AtBound(toks, p, [w]); AtIndex(toks, p, [w], 0);
    case Args(inner) => CountsArgs(toks, p, inner);
    case In(twice, file) => CountsIn(toks, p, if twice then "<<" else "<", file, special);
    case Out(_, _, _, _) => CountsOut(toks, p, i, special);
  }

  /** The count of a command made of items; so the vector has just these many cells and one. */
  lemma {:induction false} CountIs(toks: seq<Token>, p: nat, items: seq<Item>, m: Mode, special: bool, a: Acc)
    requires At(toks, p, PrintItems(items)) && ItemsOk(items, m, special, a) && p + |PrintItems(items)| == |toks|
    ensures CountFrom(toks, p, 0, special) == Counted(items)
    decreases |items|
  {
    hide At, PrintItem, ItemOk, AddItem, CountFrom;
    if items == [] {
      assert CountFrom(toks, |toks|, 0, special) == 0 by { CountsNone(toks, special); }
    } else {
      AtParts(toks, p, PrintItem(items[0]), PrintItems(items[1..]));
      CountsItem(toks, p, items[0], m, special, a);
      CountIs(toks, p + |PrintItem(items[0])|, items[1..], m, special, AddItem(a, items[0]));
      CountedCons(items);
    }
  }

  lemma {:induction false} CountsNone(toks: seq<Token>, special: bool)
    ensures CountFrom(toks, |toks|, 0, special) == 0
  {
  }

  lemma {:induction false} CountedCons(items: seq<Item>)
    requires items != []
    ensures Counted(items) == Counted([items[0]]) + Counted(items[1..])
  {
    assert [items[0]][1..] == [];
  }
}
