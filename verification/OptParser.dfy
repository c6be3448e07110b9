/** The option parser as the program runs it: a queue of tokens that it consumes and pushes back to. */
module OptParser {
  import opened Basics
  import opened OptModel

  class OptionParser {
    const cfg: Config
    var remaining: seq<string>
    var leftover: seq<string>
    var values: Values

    constructor (cfg: Config)
      ensures this.cfg == cfg && remaining == [] && leftover == [] && values == Values(map[], map[], {})
    {
      this.cfg := cfg;
      remaining, leftover, values := [], [], Values(map[], map[], {});
    }

    method LookupShortOpt(opt: string) returns (r: Lookup)
      ensures r == LookupShort(cfg, opt)
    {
      if opt !in cfg.shorts {
        return Missing(NoSuchOption);
      }
      r := Found(opt, cfg.shorts[opt]);
    }

    method LookupLongOpt(opt: string) returns (r: Lookup)
      ensures r == LookupLong(cfg, opt)
    {
      var matching: seq<string> := [];
      var names := cfg.longs.Keys;
      ghost var c := Candidates(cfg, opt);
      while names != {}
        invariant names <= cfg.longs.Keys
        invariant forall k :: k in c <==> k in matching || (k in names && opt <= k)
        invariant forall k | k in matching :: k !in names
        invariant |matching| == |(set k | k in matching)|
        decreases |names|
      {
        var k :| k in names;
        names := names - {k};
        if opt <= k {
          assert (set j | j in matching + [k]) == (set j | j in matching) + {k};
          matching := matching + [k];
        }
      }
      assert c == (set k | k in matching);
      if |matching| > 1 {
        return Missing(Ambiguous);
      }
      if |matching| == 0 {
        return Missing(NoSuchOption);
      }
      assert c == {matching[0]};
      r := Found(matching[0], cfg.longs[matching[0]]);
    }

    method Set(d: string, x: string)
      modifies this`values
      ensures values == SetValue(old(values), d, x)
    {
      values := values.(vals := values.vals[d := x]);
      values := values.(byUser := values.byUser + {d});
    }

    method Push(d: string, x: string)
      modifies this`values
      ensures var before := if d in old(values).lists then old(values).lists[d] else [];
              values == old(values).(lists := old(values).lists[d := before + [x]])
    {
      var before := if d in values.lists then values.lists[d] else [];
      values := values.(lists := values.lists[d := before + [x]]);
    }

    method ProcessOpt(o: Opt, value: string) returns (end: Option<Why>)
      modifies this`values
      ensures Process(cfg, old(values), o, value)
           == if end.Some? then Stop(end.value) else Done(values)
      ensures Does(cfg, o, value, old(values), values, end.Some?, if end.Some? then end.value else NoSuchOption)
    {
      ProcessDoes(cfg, values, o, value);
      end := None;
      match o.action
      case Store =>
        if !o.accepts(value) {
          return Some(BadValue);
        }
        Set(o.dest, value);
      case StoreConst => Set(o.dest, o.constant);
      case StoreTrue => Set(o.dest, "1");
      case StoreFalse => Set(o.dest, "0");
      case Append =>
        if !o.accepts(value) {
          return Some(BadValue);
        }
        Set(o.dest, value);
        Push(o.dest, value);
      case AppendConst =>
        Set(o.dest, o.constant);
        Push(o.dest, o.constant);
      case Count =>
        Set(o.dest, cfg.inc(if o.dest in values.vals then values.vals[o.dest] else ""));
      case Help => return Some(ShowsHelp);
      case Version => return Some(ShowsVersion);
      case Callback =>
    }

    /** What an option handler leaves: the option at the front has been taken and processed. */
    ghost predicate Handled(taken: Taken, before: Values, end: Option<Why>)
      reads this
    {
      match taken
      case NotTaken(why) => end == Some(why)
      case Taken(o, value, rest) =>
        match Process(cfg, before, o, value)
        case Stop(why) => end == Some(why)
        case Done(v) => end == None && remaining == rest && values == v
    }

    method HandleShortOpt(opt: string, arg: string) returns (end: Option<Why>)
      requires remaining != [] && remaining[0] == arg && IsShort(arg) && opt == arg[1..2]
      modifies this`remaining, this`values
      ensures Handled(TakeShort(cfg, old(remaining)), old(values), end)
    {
      remaining := remaining[1..];
      var value := "";
      var found := LookupShortOpt(opt);
      if found.Missing? {
        return Some(found.why);
      }
      if found.opt.nargs == 1 {
        value := arg[2..];
        if value == "" {
          if remaining == [] {
            return Some(NeedsArgument);
          }
          value := remaining[0];
          remaining := remaining[1..];
        }
      } else if |arg| > 2 {
        remaining := ["-" + arg[2..]] + remaining;
      }
      end := ProcessOpt(found.opt, value);
    }

    method HandleLongOpt(optstr: string) returns (end: Option<Why>)
      requires remaining != [] && IsLong(remaining[0]) && optstr == remaining[0][2..]
      modifies this`remaining, this`values
      ensures Handled(TakeLong(cfg, old(remaining)), old(values), end)
    {
      remaining := remaining[1..];
      var opt, value := optstr, "";
      var delim := OptModel.Find(optstr, '=');
      if delim < |optstr| {
        opt := optstr[..delim];
        value := optstr[delim + 1..];
      }
      assert opt == optstr[..delim];
      var found := LookupLongOpt(opt);
      if found.Missing? {
        return Some(found.why);
      }
      if found.opt.nargs == 1 && delim == |optstr| {
        if remaining != [] {
          value := remaining[0];
          remaining := remaining[1..];
        }
      }
      if found.opt.nargs == 1 && value == "" {
        return Some(NeedsArgument);
      }
      end := ProcessOpt(found.opt, value);
    }

    /** Everything not consumed is left over. */
    method KeepRest()
      modifies this`remaining, this`leftover
      ensures leftover == old(leftover) + old(remaining) && remaining == []
    {
      while remaining != []
        invariant leftover + remaining == old(leftover) + old(remaining)
        decreases |remaining|
      {
        var arg := remaining[0];
        remaining := remaining[1..];
        leftover := leftover + [arg];
      }
    }

    method FillDefaults(before: map<string, string>) returns (vals: map<string, string>)
      ensures vals == WithDefaults(before, cfg.defaults)
    {
      vals := before;
      var names := cfg.defaults.Keys;
      while names != {}
        invariant names <= cfg.defaults.Keys
        invariant vals == (cfg.defaults - names) + before
        decreases |names|
      {
        var k :| k in names;
        names := names - {k};
        if k !in vals {
          vals := vals[k := cfg.defaults[k]];
        }
      }
      assert cfg.defaults - names == cfg.defaults;
    }

    method FillOptDefaults(before: map<string, string>) returns (vals: map<string, string>)
      ensures vals == WithOptDefaults(before, cfg.opts)
    {
      vals := before;
      for i := 0 to |cfg.opts|
        invariant WithOptDefaults(vals, cfg.opts[i..]) == WithOptDefaults(before, cfg.opts)
      {
        var o := cfg.opts[i];
        assert cfg.opts[i..][0] == o && cfg.opts[i..][1..] == cfg.opts[i + 1..];
        if o.default != "" && o.dest !in vals {
          vals := vals[o.dest := o.default];
        }
      }
    }

    /** Fills in what was not set: first the parser's defaults, then those of its options in order. */
    method ApplyDefaults()
      modifies this`values
      ensures values == old(values).(vals := WithOptDefaults(WithDefaults(old(values).vals, cfg.defaults), cfg.opts))
      ensures Filled(cfg, old(values), values)
    {
      DefaultsFill(cfg, values);
      var vals := FillDefaults(values.vals);
      vals := FillOptDefaults(vals);
      values := values.(vals := vals);
    }

    /** Consumes the tokens; `Ended` stands for the program printing a message and exiting. */
    method ParseArgs(args: seq<string>) returns (r: Outcome)
      modifies this
      ensures r == Parse(cfg, args, old(leftover), old(values))
      ensures r.Parsed? ==> r.values == values && r.leftover == leftover && remaining == []
    {
      remaining := args;
      ghost var all := Parse(cfg, args, leftover, values);
      while remaining != []
        invariant Parse(cfg, remaining, leftover, values) == all
        decreases Weight(remaining)
      {
        var arg := remaining[0];
        if arg == "--" {
          remaining := remaining[1..];
          assert all == Finish(cfg, leftover + remaining, values);
          break;
        }
        TakeShrinks(cfg, remaining);
        if IsLong(arg) {
          var end := HandleLongOpt(arg[2..]);
          if end.Some? {
            return Ended(end.value);
          }
        } else if |arg| > 1 && arg[0] == '-' {
          var end := HandleShortOpt(arg[1..2], arg);
          if end.Some? {
            return Ended(end.value);
          }
        } else {
          ghost var before := leftover + remaining;
          remaining := remaining[1..];
          leftover := leftover + [arg];
          assert leftover + remaining == before;
          if !cfg.interspersed {
            assert all == Finish(cfg, leftover + remaining, values);
            break;
          }
        }
      }
      assert remaining == [] ==> leftover + remaining == leftover;
      assert all == Finish(cfg, leftover + remaining, values);
      KeepRest();
      ApplyDefaults();
      r := Parsed(values, leftover);
    }
  }
}
