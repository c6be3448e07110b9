/** Rewriting a command line into its spelled-out form changes nothing the parser makes of it. */
module OptLaws {
  import opened OptModel

  // ------------------------------------------------------------------- lookup

  lemma {:induction false} SubsetSize<T>(a: set<T>, b: set<T>)
    requires a <= b
    ensures |a| <= |b|
    decreases a
  {
    if x :| x in a {
      SubsetSize(a - {x}, b - {x});
    }
  }

  lemma OneElement<T>(s: set<T>, x: T)
    requires x in s && |s| <= 1
    ensures s == {x}
  {
    if y :| y in s && y != x {
      assert {x, y} <= s;
      SubsetSize({x, y}, s);
      assert false;
    }
  }

  /** A unique prefix finds the option that its full name finds. */
  lemma PrefixFindsFullName(cfg: Config, opt: string, name: string)
    requires LookupLong(cfg, opt).Found? && LookupLong(cfg, opt).name == name
    ensures opt <= name && name in cfg.longs
    ensures LookupLong(cfg, name) == LookupLong(cfg, opt) == Found(name, cfg.longs[name])
  {
    var c := Candidates(cfg, opt);
    assert name in c;
    OneElement(c, name);
    forall k
      ensures k in Candidates(cfg, name) <==> k == name
    {
      if k in Candidates(cfg, name) {
        assert opt <= k && k in c;
      }
    }
    assert Candidates(cfg, name) == {name};
  }

  /** Spelling a long option out in full finds it if and only if no other option's name starts with it. */
  lemma FullNameResolves(cfg: Config, name: string)
    requires name in cfg.longs
    ensures LookupLong(cfg, name) == Found(name, cfg.longs[name])
            <==> forall k | k in cfg.longs && name <= k :: k == name
    ensures LookupLong(cfg, name) == Missing(Ambiguous)
            <==> exists k :: k in cfg.longs && name < k
  {
    var c := Candidates(cfg, name);
    assert name in c;
    if |c| <= 1 {
      OneElement(c, name);
      assert forall k | k in cfg.longs && name <= k :: k in c;
    } else {
      if c <= {name} {
        SubsetSize(c, {name});
        assert false;
      }
      var k :| k in c && k != name;
      assert name < k;
    }
  }

  /** Such an option: it cannot be named at all, as every prefix of its name is one of the other's too. */
  lemma HiddenByLongerName(cfg: Config, opt: string)
    requires "ver" in cfg.longs && "version" in cfg.longs && opt <= "ver"
    ensures LookupLong(cfg, opt) == Missing(Ambiguous)
  {
    FullNameResolves(cfg, "ver");
    assert "ver" < "version";
    var c := Candidates(cfg, opt);
    if |c| <= 1 {
      assert opt <= "version" && "ver" in c && "version" in c;
      OneElement(c, "ver");
      assert false;
    }
  }

  // -------------------------------------------------------------- spelled out

  ghost function Front(cfg: Config, tokens: seq<string>): Taken
    requires tokens != [] && (IsLong(tokens[0]) || IsShort(tokens[0]))
  {
    if IsLong(tokens[0]) then TakeLong(cfg, tokens) else TakeShort(cfg, tokens)
  }

  /** A long name that can be written on a command line in full. */
  predicate Writable(name: string) {
    name != "" && '=' !in name
  }

  /** The option at the front, spelled out: full name, one option a token, value as its own token.  An
      option whose full name cannot be written stays as it is. */
  ghost function Head(cfg: Config, tokens: seq<string>): seq<string>
    requires tokens != [] && (IsLong(tokens[0]) || IsShort(tokens[0]))
    requires Front(cfg, tokens).Taken?
  {
    var t := Front(cfg, tokens);
    if IsLong(tokens[0]) then
      var text := tokens[0][2..];
      var delim := Find(text, '=');
      var name := LookupLong(cfg, text[..delim]).name;
      if !Writable(name) then tokens[..|tokens| - |t.rest|]
      else if t.opt.nargs == 1 then ["--" + name, t.value]
      else ["--" + name + text[delim..]]
    else
      var short := tokens[0][..2];
      if t.opt.nargs == 1 then [short, t.value] else [short]
  }

  /** The whole command line spelled out, as far as options are taken from it. */
  ghost function Normal(cfg: Config, tokens: seq<string>): seq<string>
    decreases Weight(tokens)
  {
    if tokens == [] || tokens[0] == "--" then tokens
    else if IsLong(tokens[0]) || IsShort(tokens[0]) then
      TakeShrinks(cfg, tokens);
      var t := Front(cfg, tokens);
      if t.NotTaken? then tokens else Head(cfg, tokens) + Normal(cfg, t.rest)
    else if cfg.interspersed then [tokens[0]] + Normal(cfg, tokens[1..])
    else tokens
  }

  lemma {:induction false} FindAt(a: string, b: string, c: char)
    requires c !in a && (b == "" || b[0] == c)
    ensures Find(a + b, c) == |a|
    decreases |a|
  {
    if a == "" {
      assert a + b == b;
    } else {
      assert (a + b)[1..] == a[1..] + b && (a + b)[0] == a[0];
      FindAt(a[1..], b, c);
    }
  }

  lemma ShortHead(cfg: Config, tokens: seq<string>, more: seq<string>)
    requires tokens != [] && IsShort(tokens[0]) && Front(cfg, tokens).Taken?
    ensures var h, t := Head(cfg, tokens), Front(cfg, tokens);
            && IsShort(h[0]) && h[0] != "--"
            && Front(cfg, h + more) == Taken(t.opt, t.value, more)
            && Head(cfg, h + more) == h
  {
    var h := Head(cfg, tokens);
    assert (h + more)[0] == h[0];
    assert h[0][1..2] == tokens[0][1..2] && h[0][..2] == h[0];
    if |h| == 2 {
      assert (h + more)[1..] == [h[1]] + more && (h + more)[1..][1..] == more;
    } else {
      assert (h + more)[1..] == more;
    }
  }

  lemma LongText(name: string, tail: string)
    requires '=' !in name && (tail == "" || tail[0] == '=')
    ensures var text := ("--" + name + tail)[2..];
            && text == name + tail && Find(text, '=') == |name| && text[..|name|] == name && text[|name|..] == tail
            && (tail != "" ==> text[|name| + 1..] == tail[1..])
  {
    FindAt(name, tail, '=');
    assert ("--" + name + tail)[2..] == name + tail;
  }

  /** The option in front of a spelled-out long option. */
  lemma LongFront(cfg: Config, name: string, tail: string, value: string, more: seq<string>)
    requires LookupLong(cfg, name).Found? && '=' !in name && (tail == "" || tail[0] == '=')
    requires var o := LookupLong(cfg, name).opt;
             if o.nargs == 1 then tail == "" && value != "" else value == if tail == "" then "" else tail[1..]
    ensures var o := LookupLong(cfg, name).opt;
            var h := if o.nargs == 1 then ["--" + name, value] else ["--" + name + tail];
            IsLong((h + more)[0]) && TakeLong(cfg, h + more) == Taken(o, value, more)
  {
    var o := LookupLong(cfg, name).opt;
    var h := if o.nargs == 1 then ["--" + name, value] else ["--" + name + tail];
    LongText(name, tail);
    assert "--" + name + "" == "--" + name;
    assert (h + more)[0] == h[0] && (h + more)[1..] == h[1..] + more;
    if o.nargs == 1 {
      assert ([value] + more)[1..] == more;
    }
  }

  lemma WrittenHead(cfg: Config, tokens: seq<string>, more: seq<string>)
    requires tokens != [] && IsLong(tokens[0]) && Front(cfg, tokens).Taken?
    requires var text := tokens[0][2..]; Writable(LookupLong(cfg, text[..Find(text, '=')]).name)
    ensures var h, t := Head(cfg, tokens), Front(cfg, tokens);
            && IsLong(h[0]) && h[0] != "--"
            && Front(cfg, h + more) == Taken(t.opt, t.value, more)
            && Head(cfg, h + more) == h
  {
    var h, t := Head(cfg, tokens), Front(cfg, tokens);
    var text := tokens[0][2..];
    var delim := Find(text, '=');
    var name := LookupLong(cfg, text[..delim]).name;
    var tail := if t.opt.nargs == 1 then "" else text[delim..];
    PrefixFindsFullName(cfg, text[..delim], name);
    assert tail != "" ==> tail[1..] == text[delim + 1..];
    hide LookupLong;
    LongFront(cfg, name, tail, t.value, more);
    LongText(name, tail);
    assert "--" + name + "" == "--" + name;
    assert (h + more)[0] == h[0];
  }

  lemma KeptHead(cfg: Config, tokens: seq<string>, more: seq<string>)
    requires tokens != [] && IsLong(tokens[0]) && tokens[0] != "--" && Front(cfg, tokens).Taken?
    requires var text := tokens[0][2..]; !Writable(LookupLong(cfg, text[..Find(text, '=')]).name)
    ensures var h, t := Head(cfg, tokens), Front(cfg, tokens);
            && h != [] && h[0] == tokens[0]
            && Front(cfg, h + more) == Taken(t.opt, t.value, more)
            && Head(cfg, h + more) == h
  {
    hide LookupLong, Find;
    var h, t := Head(cfg, tokens), Front(cfg, tokens);
    assert t.rest == tokens[1..] || (tokens[1..] != [] && t.rest == tokens[1..][1..]);
    if t.rest == tokens[1..] {
      assert h == [tokens[0]] && (h + more)[1..] == more;
    } else {
      assert h == [tokens[0], t.value];
      assert (h + more)[1..] == [t.value] + more && (h + more)[1..][1..] == more;
    }
  }

  /** Spelling out the front option takes the same option with the same value, whatever follows. */
  lemma HeadTakesSame(cfg: Config, tokens: seq<string>, more: seq<string>)
    requires tokens != [] && tokens[0] != "--" && (IsLong(tokens[0]) || IsShort(tokens[0]))
    requires Front(cfg, tokens).Taken?
    ensures var h, t := Head(cfg, tokens), Front(cfg, tokens);
            && (IsLong(h[0]) || IsShort(h[0])) && h[0] != "--" && (h + more)[0] == h[0]
            && Front(cfg, h + more) == Taken(t.opt, t.value, more)
            && Head(cfg, h + more) == h
  {
    if IsLong(tokens[0]) {
      var text := tokens[0][2..];
      if Writable(LookupLong(cfg, text[..Find(text, '=')]).name) {
        WrittenHead(cfg, tokens, more);
      } else {
        KeptHead(cfg, tokens, more);
      }
    } else {
      ShortHead(cfg, tokens, more);
    }
  }

  /** The parse once the option at the front has been taken. */
  ghost function After(cfg: Config, t: Taken, leftover: seq<string>, v: Values): Outcome {
    match t
    case NotTaken(why) => Ended(why)
    case Taken(o, value, rest) =>
      match Process(cfg, v, o, value)
      case Stop(why) => Ended(why)
      case Done(v') => Parse(cfg, rest, leftover, v')
  }

  lemma ParseFront(cfg: Config, tokens: seq<string>, leftover: seq<string>, v: Values)
    requires tokens != [] && tokens[0] != "--" && (IsLong(tokens[0]) || IsShort(tokens[0]))
    ensures Parse(cfg, tokens, leftover, v) == After(cfg, Front(cfg, tokens), leftover, v)
  {
    TakeShrinks(cfg, tokens);
  }

  /** Spelling out a command line changes neither the parsed values, nor the leftovers, nor why the
      program ends. */
  lemma {:induction false} NormalParsesSame(cfg: Config, tokens: seq<string>, leftover: seq<string>, v: Values)
    ensures Parse(cfg, Normal(cfg, tokens), leftover, v) == Parse(cfg, tokens, leftover, v)
    decreases Weight(tokens)
  {
    if tokens == [] || tokens[0] == "--" {
    } else if IsLong(tokens[0]) || IsShort(tokens[0]) {
      TakeShrinks(cfg, tokens);
      var t := Front(cfg, tokens);
      if t.Taken? {
        HeadTakesSame(cfg, tokens, Normal(cfg, t.rest));
        var p := Process(cfg, v, t.opt, t.value);
        if p.Done? {
          NormalParsesSame(cfg, t.rest, leftover, p.values);
        }
        assert Normal(cfg, tokens) == Head(cfg, tokens) + Normal(cfg, t.rest);
        hide Normal, Head, Front, Process;
        ParseFront(cfg, tokens, leftover, v);
        ParseFront(cfg, Head(cfg, tokens) + Normal(cfg, t.rest), leftover, v);
      }
    } else if cfg.interspersed {
      NormalParsesSame(cfg, tokens[1..], leftover + [tokens[0]], v);
      assert Normal(cfg, tokens)[1..] == Normal(cfg, tokens[1..]);
    }
  }

  /** A spelled-out command line spelled out is itself. */
  lemma {:induction false} NormalIsNormal(cfg: Config, tokens: seq<string>)
    ensures Normal(cfg, Normal(cfg, tokens)) == Normal(cfg, tokens)
    decreases Weight(tokens)
  {
    if tokens == [] || tokens[0] == "--" {
    } else if IsLong(tokens[0]) || IsShort(tokens[0]) {
      TakeShrinks(cfg, tokens);
      var t := Front(cfg, tokens);
      if t.Taken? {
        HeadTakesSame(cfg, tokens, Normal(cfg, t.rest));
        NormalIsNormal(cfg, t.rest);
      }
    } else if cfg.interspersed {
      NormalIsNormal(cfg, tokens[1..]);
      assert Normal(cfg, tokens)[1..] == Normal(cfg, tokens[1..]);
    }
  }

  // --------------------------------------------------- the rewritings one by one

  /** "-a", "-b", ... for the letters of a bundle. */
  function Each(flags: string): seq<string> {
    if flags == "" then [] else ["-" + flags[..1]] + Each(flags[1..])
  }

  predicate IsFlag(cfg: Config, c: char) {
    c != '-' && [c] in cfg.shorts && cfg.shorts[[c]].nargs != 1
  }

  lemma FlagPeels(cfg: Config, c: char, more: string, rest: seq<string>)
    requires IsFlag(cfg, c)
    ensures Normal(cfg, [['-', c] + more] + rest)
         == [['-', c]] + Normal(cfg, if more == "" then rest else ["-" + more] + rest)
  {
    var tokens := [['-', c] + more] + rest;
    assert tokens[0][1..2] == [c] && tokens[0][..2] == ['-', c] && tokens[0][2..] == more && tokens[1..] == rest;
    assert "--"[1] == '-' && tokens[0][1] == c && IsShort(tokens[0]);
    assert Front(cfg, tokens) == Taken(cfg.shorts[[c]], "", if more == "" then rest else ["-" + more] + rest);
    assert Head(cfg, tokens) == [['-', c]];
  }

  /** A bundle of flags is the flags one by one, in order. */
  lemma {:induction false} BundleSplits(cfg: Config, flags: string, rest: seq<string>)
    requires flags != "" && forall c | c in flags :: IsFlag(cfg, c)
    ensures Normal(cfg, ["-" + flags] + rest) == Each(flags) + Normal(cfg, rest)
    decreases |flags|
  {
    hide Normal;
    var c, more := flags[0], flags[1..];
    assert c in flags && "-" + flags == ['-', c] + more && "-" + flags[..1] == ['-', c];
    FlagPeels(cfg, c, more, rest);
    if more == "" {
      assert Each(flags) == [['-', c]];
    } else {
      BundleSplits(cfg, more, rest);
      assert [['-', c]] + (Each(more) + Normal(cfg, rest)) == Each(flags) + Normal(cfg, rest);
    }
  }

  /** "-ovalue" is "-o" "value". */
  lemma AttachedValue(cfg: Config, c: char, value: string, rest: seq<string>, leftover: seq<string>, v: Values)
    requires c != '-' && value != "" && [c] in cfg.shorts && cfg.shorts[[c]].nargs == 1
    ensures Parse(cfg, [['-', c] + value] + rest, leftover, v) == Parse(cfg, [['-', c], value] + rest, leftover, v)
  {
    var a, b := [['-', c] + value] + rest, [['-', c], value] + rest;
    assert a[0][1..2] == [c] == b[0][1..2] && a[0][2..] == value && a[1..] == rest;
    assert b[1..] == [value] + rest && b[1..][1..] == rest;
    ParseFront(cfg, a, leftover, v);
    ParseFront(cfg, b, leftover, v);
  }

  /** Nothing is left over that was not left over before or is not a token. */
  lemma {:induction false} LeftoverBound(cfg: Config, tokens: seq<string>, leftover: seq<string>, v: Values)
    ensures var o := Parse(cfg, tokens, leftover, v);
            o.Parsed? ==> |o.leftover| <= |leftover| + |tokens|
    decreases Weight(tokens)
  {
    if tokens == [] || tokens[0] == "--" {
    } else if IsLong(tokens[0]) || IsShort(tokens[0]) {
      TakeShrinks(cfg, tokens);
      ParseFront(cfg, tokens, leftover, v);
      var t := Front(cfg, tokens);
      if t.Taken? {
        assert |t.rest| <= |tokens|;
        var p := Process(cfg, v, t.opt, t.value);
        if p.Done? {
          LeftoverBound(cfg, t.rest, leftover, p.values);
        }
      }
    } else if cfg.interspersed {
      LeftoverBound(cfg, tokens[1..], leftover + [tokens[0]], v);
    }
  }

  /** "--=value" never parses as "--" "value", where the value is left over. */
  lemma EmptyNameDiffers(cfg: Config, value: string, rest: seq<string>, leftover: seq<string>, v: Values)
    ensures Parse(cfg, ["--" + "" + "=" + value] + rest, leftover, v)
         != Parse(cfg, ["--" + "", value] + rest, leftover, v)
  {
    var a, b := ["--" + "" + "=" + value] + rest, ["--" + "", value] + rest;
    assert b[0] == "--" && b[1..] == [value] + rest;
    assert Parse(cfg, b, leftover, v) == Finish(cfg, leftover + ([value] + rest), v);
    assert a[0][2..] == "=" + value && IsLong(a[0]) && |a[0]| > 2;
    assert Find(a[0][2..], '=') == 0 && a[1..] == rest;
    ParseFront(cfg, a, leftover, v);
    var t := Front(cfg, a);
    if t.Taken? {
      assert t.rest == rest;
      var p := Process(cfg, v, t.opt, t.value);
      if p.Done? {
        LeftoverBound(cfg, rest, leftover, p.values);
      }
    }
  }

  lemma NamedEqualsValue(cfg: Config, opt: string, value: string, rest: seq<string>, leftover: seq<string>, v: Values)
    requires opt != "" && '=' !in opt
    requires LookupLong(cfg, opt).Found? ==> LookupLong(cfg, opt).opt.nargs == 1
    ensures Parse(cfg, ["--" + opt + "=" + value] + rest, leftover, v)
         == Parse(cfg, ["--" + opt, value] + rest, leftover, v)
  {
    var a, b := ["--" + opt + "=" + value] + rest, ["--" + opt, value] + rest;
    FindAt(opt, "=" + value, '=');
    FindAt(opt, "", '=');
    assert a[0][2..] == opt + ("=" + value) && b[0][2..] == opt + "" == opt;
    assert (opt + ("=" + value))[..|opt|] == opt && (opt + ("=" + value))[|opt| + 1..] == value && opt[..|opt|] == opt;
    assert a[1..] == rest && b[1..] == [value] + rest && b[1..][1..] == rest;
    ParseFront(cfg, a, leftover, v);
    ParseFront(cfg, b, leftover, v);
  }

  /** "--opt=value" is "--opt" "value" for an option that takes a value, also when it is an error, if
      and only if there is a name before the "=". */
  lemma EqualsValue(cfg: Config, opt: string, value: string, rest: seq<string>, leftover: seq<string>, v: Values)
    requires '=' !in opt
    requires LookupLong(cfg, opt).Found? ==> LookupLong(cfg, opt).opt.nargs == 1
    ensures (Parse(cfg, ["--" + opt + "=" + value] + rest, leftover, v)
             == Parse(cfg, ["--" + opt, value] + rest, leftover, v))
            <==> opt != ""
  {
    if opt == "" {
      EmptyNameDiffers(cfg, value, rest, leftover, v);
    } else {
      NamedEqualsValue(cfg, opt, value, rest, leftover, v);
    }
  }
}
