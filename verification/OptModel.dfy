/** What the option parser makes of a list of tokens. */
module OptModel {

  datatype Action =
    | Store | StoreConst | StoreTrue | StoreFalse | Append | AppendConst | Count | Help | Version | Callback

  /** An option; `accepts` is its type check. */
  datatype Opt = Opt(dest: string, action: Action, nargs: nat, constant: string, accepts: string -> bool,
                     default: string)

  datatype Values = Values(vals: map<string, string>, lists: map<string, seq<string>>, byUser: set<string>)

  /** The option maps are keyed by names without dashes; `inc` is the text of the next integer. */
  datatype Config = Config(shorts: map<string, Opt>, longs: map<string, Opt>, interspersed: bool, inc: string -> string,
                           defaults: map<string, string>, opts: seq<Opt>)

  datatype Why = NoSuchOption | Ambiguous | NeedsArgument | BadValue | ShowsHelp | ShowsVersion

  /** The program goes on with values and leftovers, or it ends. */
  datatype Outcome = Parsed(values: Values, leftover: seq<string>) | Ended(why: Why)

  datatype Processed = Done(values: Values) | Stop(why: Why)

  // ------------------------------------------------------------------- lookup

  function Candidates(cfg: Config, opt: string): set<string> {
    set k | k in cfg.longs && opt <= k
  }

  datatype Lookup = Found(name: string, opt: Opt) | Missing(why: Why)

  function LookupShort(cfg: Config, opt: string): Lookup {
    if opt in cfg.shorts then Found(opt, cfg.shorts[opt]) else Missing(NoSuchOption)
  }

  /** A long option is known by any prefix that no other long option shares. */
  ghost function LookupLong(cfg: Config, opt: string): Lookup {
    var c := Candidates(cfg, opt);
    if |c| > 1 then Missing(Ambiguous)
    else if |c| == 0 then Missing(NoSuchOption)
    else var k :| k in c; Found(k, cfg.longs[k])
  }

  // --------------------------------------------------------------- processing

  function SetValue(v: Values, d: string, x: string): Values {
    v.(vals := v.vals[d := x], byUser := v.byUser + {d})
  }

  function PushValue(v: Values, d: string, x: string): Values {
    var before := if d in v.lists then v.lists[d] else [];
    SetValue(v, d, x).(lists := v.lists[d := before + [x]])
  }

  function Process(cfg: Config, v: Values, o: Opt, value: string): Processed {
    match o.action
    case Store => if o.accepts(value) then Done(SetValue(v, o.dest, value)) else Stop(BadValue)
    case StoreConst => Done(SetValue(v, o.dest, o.constant))
    case StoreTrue => Done(SetValue(v, o.dest, "1"))
    case StoreFalse => Done(SetValue(v, o.dest, "0"))
    case Append => if o.accepts(value) then Done(PushValue(v, o.dest, value)) else Stop(BadValue)
    case AppendConst => Done(PushValue(v, o.dest, o.constant))
    case Count =>
      Done(SetValue(v, o.dest, cfg.inc(if o.dest in v.vals then v.vals[o.dest] else "")))
    case Help => Stop(ShowsHelp)
    case Version => Stop(ShowsVersion)
    case Callback => Done(v)
  }

  /** The value of `d`, and of nothing else, is now `x`, and set by the user. */
  ghost predicate Gives(v: Values, d: string, x: string, v': Values) {
    && d in v'.vals && v'.vals[d] == x
    && (forall k :: k in v'.vals <==> k in v.vals || k == d)
    && (forall k | k in v.vals && k != d :: v'.vals[k] == v.vals[k])
    && (forall k :: k in v'.byUser <==> k in v.byUser || k == d)
  }

  /** The list of `d`, and no other, is longer by `x` at its end. */
  ghost predicate Lengthens(v: Values, d: string, x: string, v': Values) {
    && d in v'.lists && v'.lists[d] == (if d in v.lists then v.lists[d] else []) + [x]
    && (forall k :: k in v'.lists <==> k in v.lists || k == d)
    && (forall k | k in v.lists && k != d :: v'.lists[k] == v.lists[k])
  }

  /** What each action does: `why` is set if it ends the program, and then no value has changed. */
  ghost predicate Does(cfg: Config, o: Opt, value: string, v: Values, v': Values, ends: bool, why: Why) {
    match o.action
    case Store =>
      if o.accepts(value) then !ends && Gives(v, o.dest, value, v') && v'.lists == v.lists
      else ends && why == BadValue && v' == v
    case StoreConst => !ends && Gives(v, o.dest, o.constant, v') && v'.lists == v.lists
    case StoreTrue => !ends && Gives(v, o.dest, "1", v') && v'.lists == v.lists
    case StoreFalse => !ends && Gives(v, o.dest, "0", v') && v'.lists == v.lists
    case Append =>
      if o.accepts(value) then !ends && Gives(v, o.dest, value, v') && Lengthens(v, o.dest, value, v')
      else ends && why == BadValue && v' == v
    case AppendConst => !ends && Gives(v, o.dest, o.constant, v') && Lengthens(v, o.dest, o.constant, v')
    case Count =>
      !ends && v'.lists == v.lists
      && Gives(v, o.dest, if o.dest in v.vals then cfg.inc(v.vals[o.dest]) else cfg.inc(""), v')
    case Help => ends && why == ShowsHelp && v' == v
    case Version => ends && why == ShowsVersion && v' == v
    case Callback => !ends && v' == v
  }

  /** Every action does that. */
  lemma ProcessDoes(cfg: Config, v: Values, o: Opt, value: string)
    ensures var p := Process(cfg, v, o, value);
            if p.Stop? then Does(cfg, o, value, v, v, true, p.why)
            else Does(cfg, o, value, v, p.values, false, NoSuchOption)
  {
  }

  // ------------------------------------------------------------- token by token

  function Find(s: string, c: char): (i: nat)
    ensures i <= |s|
    ensures i < |s| ==> s[i] == c
    ensures c !in s[..i]
  {
    if s == [] || s[0] == c then 0
    else
      var i := 1 + Find(s[1..], c);
      assert s[..i] == [s[0]] + s[1..][..i - 1];
      i
  }

  predicate IsLong(arg: string) {
    "--" <= arg
  }

  predicate IsShort(arg: string) {
    !IsLong(arg) && |arg| > 1 && arg[0] == '-'
  }

  /** One option taken off the front of the tokens: which, with what value, and what is left. */
  datatype Taken = Taken(opt: Opt, value: string, rest: seq<string>) | NotTaken(why: Why)

  function TakeShort(cfg: Config, tokens: seq<string>): Taken
    requires tokens != [] && IsShort(tokens[0])
  {
    var arg, rest := tokens[0], tokens[1..];
    match LookupShort(cfg, arg[1..2])
    case Missing(why) => NotTaken(why)
    case Found(_, o) =>
      if o.nargs == 1 then
        if |arg| > 2 then Taken(o, arg[2..], rest)
        else if rest == [] then NotTaken(NeedsArgument)
        else Taken(o, rest[0], rest[1..])
      else
        Taken(o, "", if |arg| > 2 then ["-" + arg[2..]] + rest else rest)
  }

  ghost function TakeLong(cfg: Config, tokens: seq<string>): Taken
    requires tokens != [] && IsLong(tokens[0])
  {
    var text, rest := tokens[0][2..], tokens[1..];
    var delim := Find(text, '=');
    match LookupLong(cfg, text[..delim])
    case Missing(why) => NotTaken(why)
    case Found(_, o) =>
      if o.nargs == 1 && delim == |text| then
        if rest == [] || rest[0] == "" then NotTaken(NeedsArgument)
        else Taken(o, rest[0], rest[1..])
      else
        var value := if delim < |text| then text[delim + 1..] else "";
        if o.nargs == 1 && value == "" then NotTaken(NeedsArgument)
        else Taken(o, value, rest)
  }

  /** What ends the loop: one more than the length of each token, summed. */
  function Weight(tokens: seq<string>): nat {
    if tokens == [] then 0 else |tokens[0]| + 1 + Weight(tokens[1..])
  }

  lemma TakeShrinks(cfg: Config, tokens: seq<string>)
    requires tokens != []
    ensures IsShort(tokens[0]) && TakeShort(cfg, tokens).Taken? ==> Weight(TakeShort(cfg, tokens).rest) < Weight(tokens)
    ensures IsLong(tokens[0]) && TakeLong(cfg, tokens).Taken? ==> Weight(TakeLong(cfg, tokens).rest) < Weight(tokens)
  {
    if IsShort(tokens[0]) && |tokens[0]| > 2 {
      var pushed := ["-" + tokens[0][2..]] + tokens[1..];
      assert pushed[1..] == tokens[1..];
    }
  }

  function WithDefaults(m: map<string, string>, defaults: map<string, string>): map<string, string> {
    defaults + m
  }

  function WithOptDefaults(m: map<string, string>, opts: seq<Opt>): map<string, string>
    decreases |opts|
  {
    if opts == [] then m
    else
      var o := opts[0];
      WithOptDefaults(if o.default != "" && o.dest !in m then m[o.dest := o.default] else m, opts[1..])
  }

  function Finish(cfg: Config, leftover: seq<string>, v: Values): Outcome {
    Parsed(v.(vals := WithOptDefaults(WithDefaults(v.vals, cfg.defaults), cfg.opts)), leftover)
  }

  /** The default of the first option with one for `d`, or "" if there is none. */
  function FirstDefault(opts: seq<Opt>, d: string): string {
    if opts == [] then ""
    else if opts[0].dest == d && opts[0].default != "" then opts[0].default
    else FirstDefault(opts[1..], d)
  }

  /** What has a value keeps it; what has none gets the parser's default, or else that of its first
      option with one, or else stays without. */
  ghost predicate Filled(cfg: Config, v: Values, v': Values) {
    && v'.lists == v.lists && v'.byUser == v.byUser
    && forall d: string ::
         if d in v.vals then d in v'.vals && v'.vals[d] == v.vals[d]
         else if d in cfg.defaults then d in v'.vals && v'.vals[d] == cfg.defaults[d]
         else if FirstDefault(cfg.opts, d) != "" then d in v'.vals && v'.vals[d] == FirstDefault(cfg.opts, d)
         else d !in v'.vals
  }

  lemma {:induction false} OptDefaultsFill(m: map<string, string>, opts: seq<Opt>, d: string)
    ensures var m' := WithOptDefaults(m, opts);
            if d in m then d in m' && m'[d] == m[d]
            else if FirstDefault(opts, d) != "" then d in m' && m'[d] == FirstDefault(opts, d)
            else d !in m'
    decreases |opts|
  {
    if opts == [] {
    } else {
      var o := opts[0];
      OptDefaultsFill(if o.default != "" && o.dest !in m then m[o.dest := o.default] else m, opts[1..], d);
    }
  }

  /** A default is used only where no value was given. */
  lemma DefaultsFill(cfg: Config, v: Values)
    ensures Filled(cfg, v, v.(vals := WithOptDefaults(WithDefaults(v.vals, cfg.defaults), cfg.opts)))
  {
    forall d: string
      ensures var m' := WithOptDefaults(WithDefaults(v.vals, cfg.defaults), cfg.opts);
              if d in v.vals then d in m' && m'[d] == v.vals[d]
              else if d in cfg.defaults then d in m' && m'[d] == cfg.defaults[d]
              else if FirstDefault(cfg.opts, d) != "" then d in m' && m'[d] == FirstDefault(cfg.opts, d)
              else d !in m'
    {
      OptDefaultsFill(WithDefaults(v.vals, cfg.defaults), cfg.opts, d);
    }
  }

  /** The whole parse. */
  ghost function Parse(cfg: Config, tokens: seq<string>, leftover: seq<string>, v: Values): Outcome
    decreases Weight(tokens)
  {
    if tokens == [] then Finish(cfg, leftover, v)
    else if tokens[0] == "--" then Finish(cfg, leftover + tokens[1..], v)
    else if IsLong(tokens[0]) || IsShort(tokens[0]) then
      TakeShrinks(cfg, tokens);
      var t := if IsLong(tokens[0]) then TakeLong(cfg, tokens) else TakeShort(cfg, tokens);
      ParseTaken(cfg, t, leftover, v, Weight(tokens))
    else if cfg.interspersed then Parse(cfg, tokens[1..], leftover + [tokens[0]], v)
    else Finish(cfg, leftover + tokens, v)
  }

  ghost function ParseTaken(cfg: Config, t: Taken, leftover: seq<string>, v: Values, bound: nat): Outcome
    requires t.Taken? ==> Weight(t.rest) < bound
    decreases bound, 0
  {
    match t
    case NotTaken(why) => Ended(why)
    case Taken(o, value, rest) =>
      match Process(cfg, v, o, value)
      case Stop(why) => Ended(why)
      case Done(v') => Parse(cfg, rest, leftover, v')
  }
}
