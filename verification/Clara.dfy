/** Populating a configuration from command-line tokens. */
module Clara {
  import opened Common

  datatype Kind = Positional | ShortOpt | LongOpt

  datatype Token = Token(kind: Kind, data: string)

  /** An option or argument; `accepts` tells for which texts setting its bound field does not throw. */
  datatype Arg = Arg(shortNames: seq<string>, longName: string, placeholder: string, accepts: string -> bool)
  {
    predicate TakesArg()
    {
      placeholder != ""
    }

    predicate IsNamedBy(token: Token)
    {
      (token.kind == ShortOpt && token.data in shortNames) || (token.kind == LongOpt && token.data == longName)
    }
  }

  datatype CommandLine = CommandLine(
    options: seq<Arg>, positionalArgs: map<int, Arg>, floatingArg: Option<Arg>, throwOnUnrecognisedTokens: bool)

  datatype Target = OptionField(index: nat) | FixedField(position: int) | FloatingField

  /** The configuration, as the fields that were set, in order. */
  datatype Setting = Setting(target: Target, value: string)

  type Config = seq<Setting>

  datatype Outcome = Done(config: Config, unused: seq<Token>) | Failed

  // ----- options -----

  /** The first option from `k` on that a token names, or the number of options. */
  function FirstNamed(options: seq<Arg>, token: Token, k: nat): (r: nat)
    requires k <= |options|
    ensures k <= r <= |options| && (r < |options| ==> options[r].IsNamedBy(token))
    decreases |options| - k
  {
    if k == |options| || options[k].IsNamedBy(token) then k else FirstNamed(options, token, k + 1)
  }

  function Unused(token: Token, rest: Outcome): Outcome
  {
    if rest.Failed? then Failed else Done(rest.config, [token] + rest.unused)
  }

  function Options(cl: CommandLine, tokens: seq<Token>, config: Config): Outcome
    decreases |tokens|
  {
    if tokens == [] then Done(config, [])
    else
      var token := tokens[0];
      var o := FirstNamed(cl.options, token, 0);
      if o == |cl.options| then
        if token.kind == Positional || !cl.throwOnUnrecognisedTokens then Unused(token, Options(cl, tokens[1..], config))
        else Failed
      else if cl.options[o].TakesArg() then
        if |tokens| == 1 || tokens[1].kind != Positional || !cl.options[o].accepts(tokens[1].data) then Failed
        else Options(cl, tokens[2..], config + [Setting(OptionField(o), tokens[1].data)])
      else if !cl.options[o].accepts("true") then Failed
      else Options(cl, tokens[1..], config + [Setting(OptionField(o), "true")])
  }

  function Prepend(tokens: seq<Token>, rest: Outcome): Outcome
  {
    if rest.Failed? then Failed else Done(rest.config, tokens + rest.unused)
  }

  lemma {:induction false} PrependUnused(tokens: seq<Token>, token: Token, rest: Outcome)
    ensures Prepend(tokens, Unused(token, rest)) == Prepend(tokens + [token], rest)
  {
    if rest.Done? {
      assert tokens + ([token] + rest.unused) == (tokens + [token]) + rest.unused;
    }
  }

  /** Sets what the options among the tokens say. An option whose field cannot be set counts as an
      error, and the search goes on with the next option of that name. */
  method PopulateOptions(cl: CommandLine, tokens: seq<Token>, config: Config) returns (r: Outcome)
    ensures r == Options(cl, tokens, config)
  {
    var unusedTokens: seq<Token> := [];
    var fields: Config := config;
    var errors := 0;
    var i := 0;
    while i < |tokens|
      invariant 0 <= i <= |tokens|
      invariant errors == 0 ==> Options(cl, tokens, config) == Prepend(unusedTokens, Options(cl, tokens[i..], fields))
      invariant errors > 0 ==> Options(cl, tokens, config) == Failed
      decreases |tokens| - i
    {
      var token := tokens[i];
      assert tokens[i..][0] == token && tokens[i..][1..] == tokens[i+1..];
      var it := 0;
      var found := false;
      ghost var i0, fields0, errors0 := i, fields, errors;
      while it < |cl.options| && !found
        invariant 0 <= it <= |cl.options| && i0 <= i < |tokens|
        invariant errors >= errors0
        invariant errors > 0 ==> Options(cl, tokens, config) == Failed
        invariant errors == 0 && !found ==> i == i0 && fields == fields0
        invariant errors == 0 && !found ==> FirstNamed(cl.options, token, it) == FirstNamed(cl.options, token, 0)
        invariant errors == 0 && found ==>
          FirstNamed(cl.options, token, 0) < |cl.options|
          && Options(cl, tokens[i0..], fields0) == Options(cl, tokens[i+1..], fields)
        decreases |cl.options| - it, !found
      {
        var arg := cl.options[it];
        if arg.IsNamedBy(token) {
          if arg.TakesArg() {
            if i == |tokens| - 1 || tokens[i + 1].kind != Positional {
              errors := errors + 1;
              found := true;
            } else {
              i := i + 1;
              assert tokens[i0..][2..] == tokens[i0+2..] && tokens[i0..][1] == tokens[i0+1];
              if arg.accepts(tokens[i].data) {
                fields := fields + [Setting(OptionField(it), tokens[i].data)];
                found := true;
              } else {
                errors := errors + 1;
                it := it + 1;
              }
            }
          } else if arg.accepts("true") {
            fields := fields + [Setting(OptionField(it), "true")];
            found := true;
          } else {
            errors := errors + 1;
            it := it + 1;
          }
        } else {
          it := it + 1;
        }
      }
      if !found {
        if token.kind == Positional || !cl.throwOnUnrecognisedTokens {
          PrependUnused(unusedTokens, token, Options(cl, tokens[i0+1..], fields0));
          unusedTokens := unusedTokens + [token];
        } else if errors == 0 {
          errors := errors + 1;
        }
      }
      i := i + 1;
    }
    r := if errors > 0 then Failed else Done(fields, unusedTokens);
  }

  // ----- arguments -----

  function FixedArgs(cl: CommandLine, tokens: seq<Token>, position: int, config: Config): Outcome
    decreases |tokens|
  {
    if tokens == [] then Done(config, [])
    else
      var token := tokens[0];
      var next := if token.kind == Positional then position + 1 else position;
      if position in cl.positionalArgs then
        if !cl.positionalArgs[position].accepts(token.data) then Failed
        else FixedArgs(cl, tokens[1..], next, config + [Setting(FixedField(position), token.data)])
      else Unused(token, FixedArgs(cl, tokens[1..], next, config))
  }

  method PopulateFixedArgs(cl: CommandLine, tokens: seq<Token>, config: Config) returns (r: Outcome)
    ensures r == FixedArgs(cl, tokens, 1, config)
  {
    var unusedTokens: seq<Token> := [];
    var fields: Config := config;
    var position := 1;
    var i := 0;
    while i < |tokens|
      invariant 0 <= i <= |tokens|
      invariant FixedArgs(cl, tokens, 1, config) == Prepend(unusedTokens, FixedArgs(cl, tokens[i..], position, fields))
    {
      var token := tokens[i];
      assert tokens[i..][0] == token && tokens[i..][1..] == tokens[i+1..];
      if position in cl.positionalArgs {
        if !cl.positionalArgs[position].accepts(token.data) {
          return Failed;
        }
        fields := fields + [Setting(FixedField(position), token.data)];
      } else {
        PrependUnused(unusedTokens, token,
          FixedArgs(cl, tokens[i+1..], if token.kind == Positional then position + 1 else position, fields));
        unusedTokens := unusedTokens + [token];
      }
      if token.kind == Positional {
        position := position + 1;
      }
      i := i + 1;
    }
    r := Done(fields, unusedTokens);
  }

  function FloatingArgs(cl: CommandLine, tokens: seq<Token>, config: Config): Outcome
    decreases |tokens|
  {
    if tokens == [] || cl.floatingArg.None? then Done(config, tokens)
    else
      var token := tokens[0];
      if token.kind == Positional then
        if !cl.floatingArg.value.accepts(token.data) then Failed
        else FloatingArgs(cl, tokens[1..], config + [Setting(FloatingField, token.data)])
      else Unused(token, FloatingArgs(cl, tokens[1..], config))
  }

  method PopulateFloatingArgs(cl: CommandLine, tokens: seq<Token>, config: Config) returns (r: Outcome)
    ensures r == FloatingArgs(cl, tokens, config)
  {
    if cl.floatingArg.None? {
      return Done(config, tokens);
    }
    var unusedTokens: seq<Token> := [];
    var fields: Config := config;
    var i := 0;
    while i < |tokens|
      invariant 0 <= i <= |tokens|
      invariant FloatingArgs(cl, tokens, config) == Prepend(unusedTokens, FloatingArgs(cl, tokens[i..], fields))
    {
      var token := tokens[i];
      assert tokens[i..][0] == token && tokens[i..][1..] == tokens[i+1..];
      if token.kind == Positional {
        if !cl.floatingArg.value.accepts(token.data) {
          return Failed;
        }
        fields := fields + [Setting(FloatingField, token.data)];
      } else {
        PrependUnused(unusedTokens, token, FloatingArgs(cl, tokens[i+1..], fields));
        unusedTokens := unusedTokens + [token];
      }
      i := i + 1;
    }
    r := Done(fields, unusedTokens);
  }

  method Populate(cl: CommandLine, tokens: seq<Token>) returns (r: Outcome)
    ensures r == Populated(cl, tokens)
  {
    if cl.options == [] && cl.positionalArgs == map[] && cl.floatingArg.None? {
      return Failed;
    }
    r := PopulateOptions(cl, tokens, []);
    if r.Done? {
      r := PopulateFixedArgs(cl, r.unused, r.config);
    }
    if r.Done? {
      r := PopulateFloatingArgs(cl, r.unused, r.config);
    }
  }

  function Populated(cl: CommandLine, tokens: seq<Token>): Outcome
  {
    if cl.options == [] && cl.positionalArgs == map[] && cl.floatingArg.None? then Failed
    else
      var o := Options(cl, tokens, []);
      if o.Failed? then Failed
      else
        var f := FixedArgs(cl, o.unused, 1, o.config);
        if f.Failed? then Failed else FloatingArgs(cl, f.unused, f.config)
  }
}
