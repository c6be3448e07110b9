/** What a command line means, item by item: the parser does what each item written on it asks for. */
module OptMeaning {
  import opened OptModel
  import opened OptLaws

  /** A flag or an option with its value, by its letter or its full name, or a plain argument. */
  datatype Item =
    | Letter(c: char) | LetterWith(c: char, value: string)
    | Name(name: string) | NameWith(name: string, value: string)
    | Plain(text: string)

  /** The item as its user writes it. */
  function Written(i: Item): seq<string> {
    match i
    case Letter(c) => [['-', c]]
    case LetterWith(c, value) => [['-', c], value]
    case Name(name) => ["--" + name]
    case NameWith(name, value) => ["--" + name, value]
    case Plain(text) => [text]
  }

  predicate IsLetter(cfg: Config, c: char) {
    c != '-' && [c] in cfg.shorts
  }

  /** A full name that can be written and that no other option's name starts with. */
  ghost predicate IsName(cfg: Config, name: string) {
    && name in cfg.longs && name != "" && '=' !in name
    && forall k | k in cfg.longs && name <= k :: k == name
  }

  /** A plain argument does not start with a dash, or is a dash alone. */
  predicate IsPlain(text: string) {
    text == "" || text[0] != '-' || text == "-"
  }

  /** The item fits the options there are: a value for those that take one, and not for others. */
  ghost predicate Fits(cfg: Config, i: Item) {
    match i
    case Letter(c) => IsLetter(cfg, c) && cfg.shorts[[c]].nargs != 1
    case LetterWith(c, _) => IsLetter(cfg, c) && cfg.shorts[[c]].nargs == 1
    case Name(name) => IsName(cfg, name) && cfg.longs[name].nargs != 1
    case NameWith(name, value) => IsName(cfg, name) && cfg.longs[name].nargs == 1 && value != ""
    case Plain(text) => IsPlain(text)
  }

  ghost function Option(cfg: Config, i: Item): Opt
    requires Fits(cfg, i) && !i.Plain?
  {
    match i
    case Letter(c) => cfg.shorts[[c]]
    case LetterWith(c, _) => cfg.shorts[[c]]
    case Name(name) => cfg.longs[name]
    case NameWith(name, _) => cfg.longs[name]
  }

  function Value(i: Item): string {
    if i.LetterWith? || i.NameWith? then i.value else ""
  }

  lemma LetterTaken(cfg: Config, i: Item, rest: seq<string>)
    requires Fits(cfg, i) && (i.Letter? || i.LetterWith?)
    ensures var tokens := Written(i) + rest;
            && tokens[0] != "--" && IsShort(tokens[0])
            && Front(cfg, tokens) == Taken(Option(cfg, i), Value(i), rest)
  {
    var tokens := Written(i) + rest;
    assert tokens[0] == ['-', i.c] && "--"[1] == '-' && tokens[0][1..2] == [i.c];
    if i.LetterWith? {
      assert tokens[1..] == [i.value] + rest && tokens[1..][1..] == rest;
    } else {
      assert tokens[1..] == rest;
    }
  }

  lemma NameTaken(cfg: Config, i: Item, rest: seq<string>)
    requires Fits(cfg, i) && (i.Name? || i.NameWith?)
    ensures var tokens := Written(i) + rest;
            && tokens[0] != "--" && IsLong(tokens[0])
            && Front(cfg, tokens) == Taken(Option(cfg, i), Value(i), rest)
  {
    var tokens := Written(i) + rest;
    FullNameResolves(cfg, i.name);
    assert tokens[0] == "--" + i.name && |tokens[0]| > 2 && tokens[0][2..] == i.name;
    FindAt(i.name, "", '=');
    assert i.name + "" == i.name && i.name[..|i.name|] == i.name;
    if i.NameWith? {
      assert tokens[1..] == [i.value] + rest && tokens[1..][1..] == rest;
    } else {
      assert tokens[1..] == rest;
    }
  }

  /** An option first on the line is processed with its value, and the rest is parsed after it. */
  lemma OptionFirst(cfg: Config, i: Item, rest: seq<string>, leftover: seq<string>, v: Values)
    requires Fits(cfg, i) && !i.Plain?
    ensures var p := Process(cfg, v, Option(cfg, i), Value(i));
            Parse(cfg, Written(i) + rest, leftover, v)
            == if p.Stop? then Ended(p.why) else Parse(cfg, rest, leftover, p.values)
  {
    if i.Letter? || i.LetterWith? {
      LetterTaken(cfg, i, rest);
    } else {
      NameTaken(cfg, i, rest);
    }
    hide Front, Process, Fits, Written;
    ParseFront(cfg, Written(i) + rest, leftover, v);
  }

  /** A plain argument is left over; what follows is parsed on, or left over too. */
  lemma PlainFirst(cfg: Config, text: string, rest: seq<string>, leftover: seq<string>, v: Values)
    requires IsPlain(text)
    ensures Parse(cfg, [text] + rest, leftover, v)
         == if cfg.interspersed then Parse(cfg, rest, leftover + [text], v)
            else Finish(cfg, leftover + ([text] + rest), v)
  {
    assert ([text] + rest)[1..] == rest;
    assert !IsLong(text) && !IsShort(text) && text != "--";
  }

  /** Everything after "--" is left over. */
  lemma DashesFirst(cfg: Config, rest: seq<string>, leftover: seq<string>, v: Values)
    ensures Parse(cfg, ["--"] + rest, leftover, v) == Finish(cfg, leftover + rest, v)
  {
    assert (["--"] + rest)[1..] == rest;
  }

  /** With nothing left to parse, the leftovers are what they are, and defaults fill what has no value. */
  lemma NothingLeft(cfg: Config, leftover: seq<string>, v: Values)
    ensures Finish(cfg, leftover, v).Parsed? && Finish(cfg, leftover, v).leftover == leftover
    ensures Filled(cfg, v, Finish(cfg, leftover, v).values)
    ensures Parse(cfg, [], leftover, v) == Finish(cfg, leftover, v)
  {
    DefaultsFill(cfg, v);
  }

  function AllWritten(items: seq<Item>): seq<string> {
    if items == [] then [] else Written(items[0]) + AllWritten(items[1..])
  }

  function PlainTexts(items: seq<Item>): seq<string> {
    if items == [] then []
    else (if items[0].Plain? then [items[0].text] else []) + PlainTexts(items[1..])
  }

  /** The values after the items one by one, or why the program ends at one of them. */
  ghost function AllProcessed(cfg: Config, items: seq<Item>, v: Values): Processed
    requires forall i | i in items :: Fits(cfg, i)
  {
    if items == [] then Done(v)
    else
      assert Fits(cfg, items[0]);
      if items[0].Plain? then AllProcessed(cfg, items[1..], v)
      else
        match Process(cfg, v, Option(cfg, items[0]), Value(items[0]))
        case Stop(why) => Stop(why)
        case Done(v') => AllProcessed(cfg, items[1..], v')
  }

  lemma PlainArgument(cfg: Config, i: Item, rest: seq<string>, leftover: seq<string>, v: Values)
    requires cfg.interspersed && i.Plain? && Fits(cfg, i)
    ensures Parse(cfg, Written(i) + rest, leftover, v) == Parse(cfg, rest, leftover + [i.text], v)
  {
    PlainFirst(cfg, i.text, rest, leftover, v);
  }

  /** A command line of any items, then "--", then anything: the options take effect in order, the plain
      arguments and what follows "--" are left over in order. */
  lemma {:induction false} CommandLineMeans(cfg: Config, items: seq<Item>, tail: seq<string>, leftover: seq<string>,
                                            v: Values)
    requires cfg.interspersed && forall i | i in items :: Fits(cfg, i)
    ensures var p := AllProcessed(cfg, items, v);
            Parse(cfg, AllWritten(items) + (["--"] + tail), leftover, v)
            == if p.Stop? then Ended(p.why) else Finish(cfg, leftover + PlainTexts(items) + tail, p.values)
    decreases |items|
  {
    hide Process, Parse, Finish, Fits, Written;
    if items == [] {
      DashesFirst(cfg, tail, leftover, v);
      assert AllWritten(items) + (["--"] + tail) == ["--"] + tail;
      assert leftover + PlainTexts(items) == leftover;
    } else {
      var i, more, end := items[0], items[1..], ["--"] + tail;
      assert i in items;
      assert AllWritten(items) + end == Written(i) + (AllWritten(more) + end);
      if i.Plain? {
        PlainArgument(cfg, i, AllWritten(more) + end, leftover, v);
        CommandLineMeans(cfg, more, tail, leftover + [i.text], v);
        assert leftover + [i.text] + PlainTexts(more) == leftover + PlainTexts(items);
      } else {
        OptionFirst(cfg, i, AllWritten(more) + end, leftover, v);
        var p := Process(cfg, v, Option(cfg, i), Value(i));
        if p.Done? {
          CommandLineMeans(cfg, more, tail, leftover, p.values);
        }
        assert PlainTexts(items) == PlainTexts(more);
      }
    }
  }

  // --------------------------------------------------------------------- refusals

  /** A letter of no option, or one whose value is missing. */
  lemma LetterRefused(cfg: Config, c: char, more: string, rest: seq<string>, leftover: seq<string>, v: Values)
    requires c != '-'
    ensures [c] !in cfg.shorts ==> Parse(cfg, [['-', c] + more] + rest, leftover, v) == Ended(NoSuchOption)
    ensures [c] in cfg.shorts && cfg.shorts[[c]].nargs == 1 ==>
              Parse(cfg, [['-', c]], leftover, v) == Ended(NeedsArgument)
  {
    var a := [['-', c] + more] + rest;
    assert "--"[1] == '-' && a[0][1..2] == [c] && a[0][1] == c;
    ParseFront(cfg, a, leftover, v);
    assert [['-', c]][0][1..2] == [c];
    ParseFront(cfg, [['-', c]], leftover, v);
  }

  lemma NameText(name: string)
    requires name != "" && '=' !in name
    ensures IsLong("--" + name) && "--" + name != "--" && ("--" + name)[2..] == name
    ensures Find(name, '=') == |name| && name[..|name|] == name
  {
    FindAt(name, "", '=');
    assert name + "" == name;
    assert |"--" + name| > 2;
  }

  /** A name that starts no option's name or several, and one whose value is missing or empty. */
  lemma NameRefused(cfg: Config, name: string, rest: seq<string>, leftover: seq<string>, v: Values)
    requires name != "" && '=' !in name
    ensures (forall k | k in cfg.longs :: !(name <= k)) ==>
              Parse(cfg, ["--" + name] + rest, leftover, v) == Ended(NoSuchOption)
    ensures (exists j, k :: j in cfg.longs && k in cfg.longs && j != k && name <= j && name <= k) ==>
              Parse(cfg, ["--" + name] + rest, leftover, v) == Ended(Ambiguous)
    ensures IsName(cfg, name) && cfg.longs[name].nargs == 1 ==>
              && Parse(cfg, ["--" + name], leftover, v) == Ended(NeedsArgument)
              && Parse(cfg, ["--" + name, ""] + rest, leftover, v) == Ended(NeedsArgument)
  {
    NameText(name);
    var a, b, c := ["--" + name] + rest, ["--" + name], ["--" + name, ""] + rest;
    assert a[0] == b[0] == c[0] == "--" + name;
    ParseFront(cfg, a, leftover, v);
    ParseFront(cfg, b, leftover, v);
    ParseFront(cfg, c, leftover, v);
    var cs := Candidates(cfg, name);
    if forall k | k in cfg.longs :: !(name <= k) {
      assert cs == {};
    }
    if j, k :| j in cfg.longs && k in cfg.longs && j != k && name <= j && name <= k {
      SubsetSize({j, k}, cs);
    }
    if IsName(cfg, name) {
      FullNameResolves(cfg, name);
      assert c[1..] == [""] + rest;
    }
  }
}
