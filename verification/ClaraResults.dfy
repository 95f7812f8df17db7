/** What becomes of each token of a command line. */
module ClaraResults {
  import opened Common
  import opened Clara

  // ----- options: a command line spelled out and read back -----

  /** A command line is made of flags, options with a value, and tokens that are neither. */
  datatype Item = Flag(token: Token, index: nat) | Valued(token: Token, index: nat, value: Token) | Loose(token: Token)

  /** A short token names an option by one of its short names, a long one by its long name, and a
      positional one never. */
  predicate Called(arg: Arg, token: Token)
  {
    match token.kind
    case ShortOpt => token.data in arg.shortNames
    case LongOpt => token.data == arg.longName
    case Positional => false
  }

  ghost predicate FirstCalled(options: seq<Arg>, token: Token, o: nat)
  {
    o < |options| && Called(options[o], token) && forall j :: 0 <= j < o ==> !Called(options[j], token)
  }

  ghost predicate NoneCalled(options: seq<Arg>, token: Token)
  {
    forall j :: 0 <= j < |options| ==> !Called(options[j], token)
  }

  /** The search finds the first option called like the token, if there is one. */
  lemma {:induction false} FirstNamedExactly(options: seq<Arg>, token: Token, k: nat)
    requires k <= |options| && forall j :: 0 <= j < k ==> !Called(options[j], token)
    ensures
      var o := FirstNamed(options, token, k);
      && (o < |options| <==> FirstCalled(options, token, o))
      && (o == |options| <==> NoneCalled(options, token))
      && (forall p: nat :: FirstCalled(options, token, p) ==> p == o)
    decreases |options| - k
  {
    if k < |options| && !options[k].IsNamedBy(token) {
      FirstNamedExactly(options, token, k + 1);
    }
  }

  /** Each option is the first of its name, has a value exactly if it has a placeholder for one, and
      accepts it; a loose token is positional or names no option. */
  ghost predicate ValidItem(cl: CommandLine, item: Item)
  {
    match item
    case Flag(token, o) =>
      FirstCalled(cl.options, token, o) && cl.options[o].placeholder == "" && cl.options[o].accepts("true")
    case Valued(token, o, value) =>
      FirstCalled(cl.options, token, o) && cl.options[o].placeholder != ""
      && value.kind == Positional && cl.options[o].accepts(value.data)
    case Loose(token) =>
      NoneCalled(cl.options, token) && (token.kind == Positional || !cl.throwOnUnrecognisedTokens)
  }

  ghost predicate ValidItems(cl: CommandLine, items: seq<Item>)
  {
    forall i :: 0 <= i < |items| ==> ValidItem(cl, items[i])
  }

  function TokensOf(item: Item): seq<Token>
  {
    if item.Valued? then [item.token, item.value] else [item.token]
  }

  function Spell(items: seq<Item>): seq<Token>
  {
    if items == [] then [] else TokensOf(items[0]) + Spell(items[1..])
  }

  function SettingsOf(item: Item): Config
  {
    match item
    case Flag(_, o) => [Setting(OptionField(o), "true")]
    case Valued(_, o, value) => [Setting(OptionField(o), value.data)]
    case Loose(_) => []
  }

  function AllSettings(items: seq<Item>): Config
  {
    if items == [] then [] else SettingsOf(items[0]) + AllSettings(items[1..])
  }

  function LooseTokens(items: seq<Item>): seq<Token>
  {
    if items == [] then []
    else (if items[0].Loose? then [items[0].token] else []) + LooseTokens(items[1..])
  }

  lemma {:induction false} OptionsStep(cl: CommandLine, item: Item, rest: seq<Token>, config: Config)
    requires ValidItem(cl, item)
    ensures Options(cl, TokensOf(item) + rest, config) ==
      if item.Loose? then Unused(item.token, Options(cl, rest, config)) else Options(cl, rest, config + SettingsOf(item))
  {
    var tokens := TokensOf(item) + rest;
    FirstNamedExactly(cl.options, item.token, 0);
    assert tokens[0] == item.token;
    assert item.Valued? ==> tokens[1] == item.value && tokens[2..] == rest;
    assert !item.Valued? ==> tokens[1..] == rest;
  }

  lemma {:induction false} AllSettingsCons(config: Config, items: seq<Item>)
    requires items != []
    ensures config + AllSettings(items) == (config + SettingsOf(items[0])) + AllSettings(items[1..])
    ensures items[0].Loose? ==> config + SettingsOf(items[0]) == config
  {
    Reassociate(config, SettingsOf(items[0]), AllSettings(items[1..]));
  }

  /** Spelled-out items are read back as those items. */
  lemma {:induction false} OptionsReadBack(cl: CommandLine, items: seq<Item>, config: Config)
    requires ValidItems(cl, items)
    ensures Options(cl, Spell(items), config) == Done(config + AllSettings(items), LooseTokens(items))
  {
    if items == [] {
      assert config + [] == config;
    } else {
      OptionsStep(cl, items[0], Spell(items[1..]), config);
      OptionsReadBack(cl, items[1..], config + SettingsOf(items[0]));
      AllSettingsCons(config, items);
    }
  }

  /** And only spelled-out items are read without an error. */
  lemma {:induction false} OnlyItemsRead(cl: CommandLine, tokens: seq<Token>, config: Config) returns (items: seq<Item>)
    requires Options(cl, tokens, config).Done?
    ensures ValidItems(cl, items) && Spell(items) == tokens
    decreases |tokens|
  {
    if tokens == [] {
      items := [];
    } else {
      var o := FirstNamed(cl.options, tokens[0], 0);
      FirstNamedExactly(cl.options, tokens[0], 0);
      var item, rest, fields;
      if o == |cl.options| {
        item, rest, fields := Loose(tokens[0]), tokens[1..], config;
      } else if cl.options[o].TakesArg() {
        item, rest := Valued(tokens[0], o, tokens[1]), tokens[2..];
        fields := config + [Setting(OptionField(o), tokens[1].data)];
      } else {
        item, rest, fields := Flag(tokens[0], o), tokens[1..], config + [Setting(OptionField(o), "true")];
      }
      assert ValidItem(cl, item) && TokensOf(item) + rest == tokens;
      var more := OnlyItemsRead(cl, rest, fields);
      items := [item] + more;
      assert items[1..] == more;
    }
  }

  ghost predicate Spells(cl: CommandLine, items: seq<Item>, tokens: seq<Token>)
  {
    ValidItems(cl, items) && Spell(items) == tokens
  }

  /** Options are read without an error exactly when the tokens spell out items. */
  lemma {:induction false} OptionsReadExactly(cl: CommandLine, tokens: seq<Token>, config: Config)
    ensures Options(cl, tokens, config).Done? <==> exists items :: Spells(cl, items, tokens)
  {
    if Options(cl, tokens, config).Done? {
      var items := OnlyItemsRead(cl, tokens, config);
      assert Spells(cl, items, tokens);
    }
    if items :| Spells(cl, items, tokens) {
      OptionsReadBack(cl, items, config);
    }
  }

  // ----- fixed and floating arguments -----

  datatype Use = AsFixed(position: int) | AsFloating | Left

  /** What each token that is no option is used for, from a position on. */
  function Uses(cl: CommandLine, tokens: seq<Token>, position: int): (r: seq<Use>)
    ensures |r| == |tokens|
  {
    if tokens == [] then []
    else
      [if position in cl.positionalArgs then AsFixed(position)
       else if tokens[0].kind == Positional && cl.floatingArg.Some? then AsFloating else Left]
      + Uses(cl, tokens[1..], if tokens[0].kind == Positional then position + 1 else position)
  }

  /** The tokens left, in order. */
  function LeftOver(tokens: seq<Token>, uses: seq<Use>): seq<Token>
    requires |tokens| == |uses|
  {
    if tokens == [] then []
    else (if uses[0].Left? then [tokens[0]] else []) + LeftOver(tokens[1..], uses[1..])
  }

  /** The setting a use makes of a token as a fixed argument, if it does. */
  function FixedSetting(token: Token, use: Use): Config
  {
    if use.AsFixed? then [Setting(FixedField(use.position), token.data)] else []
  }

  function FixedSettings(tokens: seq<Token>, uses: seq<Use>): Config
    requires |tokens| == |uses|
  {
    if tokens == [] then []
    else FixedSetting(tokens[0], uses[0]) + FixedSettings(tokens[1..], uses[1..])
  }

  function FloatingSettings(tokens: seq<Token>, uses: seq<Use>): Config
    requires |tokens| == |uses|
  {
    if tokens == [] then []
    else FloatingSetting(tokens[0], uses[0]) + FloatingSettings(tokens[1..], uses[1..])
  }

  /** The tokens not used as fixed arguments, in order. */
  function NotFixed(tokens: seq<Token>, uses: seq<Use>): seq<Token>
    requires |tokens| == |uses|
  {
    if tokens == [] then []
    else (if uses[0].AsFixed? then [] else [tokens[0]]) + NotFixed(tokens[1..], uses[1..])
  }

  lemma {:induction false} FixedArgsUse(cl: CommandLine, tokens: seq<Token>, position: int, config: Config)
    requires FixedArgs(cl, tokens, position, config).Done?
    ensures
      var uses := Uses(cl, tokens, position);
      FixedArgs(cl, tokens, position, config) == Done(config + FixedSettings(tokens, uses), NotFixed(tokens, uses))
    decreases |tokens|
  {
    if tokens == [] {
      assert config + [] == config;
    } else {
      var token := tokens[0];
      var next := if token.kind == Positional then position + 1 else position;
      var setting := [Setting(FixedField(position), token.data)];
      var rest := Uses(cl, tokens[1..], next);
      assert Uses(cl, tokens, position)[1..] == rest;
      if position in cl.positionalArgs {
        FixedArgsUse(cl, tokens[1..], next, config + setting);
        Reassociate(config, setting, FixedSettings(tokens[1..], rest));
      } else {
        FixedArgsUse(cl, tokens[1..], next, config);
        assert [] + FixedSettings(tokens[1..], rest) == FixedSettings(tokens[1..], rest);
      }
    }
  }

  /** The setting a use makes of a token as a floating argument, if it does. */
  function FloatingSetting(token: Token, use: Use): Config
  {
    if use.AsFloating? then [Setting(FloatingField, token.data)] else []
  }

  lemma {:induction false} FloatingStep(cl: CommandLine, token: Token, more: seq<Token>, config: Config)
    requires FloatingArgs(cl, [token] + more, config).Done?
    ensures
      var use := if token.kind == Positional && cl.floatingArg.Some? then AsFloating else Left;
      var rest := FloatingArgs(cl, more, config + FloatingSetting(token, use));
      FloatingArgs(cl, [token] + more, config) == if use.AsFloating? then rest else Unused(token, rest)
  {
    assert ([token] + more)[1..] == more && config + [] == config;
  }

  lemma {:induction false} FloatingArgsUse(cl: CommandLine, tokens: seq<Token>, position: int, config: Config)
    requires FloatingArgs(cl, NotFixed(tokens, Uses(cl, tokens, position)), config).Done?
    ensures
      var uses := Uses(cl, tokens, position);
      FloatingArgs(cl, NotFixed(tokens, uses), config) == Done(config + FloatingSettings(tokens, uses), LeftOver(tokens, uses))
    decreases |tokens|
  {
    if tokens == [] {
      assert config + [] == config;
    } else {
      var token, uses := tokens[0], Uses(cl, tokens, position);
      var next := if token.kind == Positional then position + 1 else position;
      var rest := Uses(cl, tokens[1..], next);
      var more := NotFixed(tokens[1..], rest);
      assert uses == [uses[0]] + rest && uses[1..] == rest;
      if uses[0].AsFixed? {
        assert NotFixed(tokens, uses) == [] + more == more;
        assert config + FloatingSetting(token, uses[0]) == config;
      } else {
        FloatingStep(cl, token, more, config);
      }
      FloatingArgsUse(cl, tokens[1..], next, config + FloatingSetting(token, uses[0]));
      Reassociate(config, FloatingSetting(token, uses[0]), FloatingSettings(tokens[1..], rest));
    }
  }

  /** No token is lost and none is used twice: the tokens spell out options, their values and loose
      tokens; each loose token has one use, and those of no use are returned in order. The configuration
      holds the settings of all the uses and no others. */
  lemma {:induction false} TokensConserved(cl: CommandLine, tokens: seq<Token>) returns (items: seq<Item>)
    requires Populated(cl, tokens).Done?
    ensures Spells(cl, items, tokens)
    ensures
      var loose := LooseTokens(items);
      var uses := Uses(cl, loose, 1);
      Populated(cl, tokens) ==
        Done(AllSettings(items) + FixedSettings(loose, uses) + FloatingSettings(loose, uses), LeftOver(loose, uses))
  {
    items := OnlyItemsRead(cl, tokens, []);
    OptionsReadBack(cl, items, []);
    assert [] + AllSettings(items) == AllSettings(items);
    var loose := LooseTokens(items);
    FixedArgsUse(cl, loose, 1, AllSettings(items));
    FloatingArgsUse(cl, loose, 1, AllSettings(items) + FixedSettings(loose, Uses(cl, loose, 1)));
  }

  // ----- when populating succeeds -----

  /** Every loose token is accepted where it is used. */
  ghost predicate AllAccepted(cl: CommandLine, tokens: seq<Token>, uses: seq<Use>)
    requires |tokens| == |uses|
  {
    forall k :: 0 <= k < |tokens| ==> Accepted(cl, tokens[k], uses[k])
  }

  predicate Accepted(cl: CommandLine, token: Token, use: Use)
  {
    match use
    case AsFixed(p) => p in cl.positionalArgs && cl.positionalArgs[p].accepts(token.data)
    case AsFloating => cl.floatingArg.Some? && cl.floatingArg.value.accepts(token.data)
    case Left => true
  }

  ghost predicate FixedAccepted(cl: CommandLine, tokens: seq<Token>, uses: seq<Use>)
    requires |tokens| == |uses|
  {
    forall k :: 0 <= k < |tokens| && uses[k].AsFixed? ==> Accepted(cl, tokens[k], uses[k])
  }

  ghost predicate FloatingAccepted(cl: CommandLine, tokens: seq<Token>, uses: seq<Use>)
    requires |tokens| == |uses|
  {
    forall k :: 0 <= k < |tokens| && uses[k].AsFloating? ==> Accepted(cl, tokens[k], uses[k])
  }

  lemma {:induction false} AcceptedCons(cl: CommandLine, tokens: seq<Token>, uses: seq<Use>)
    requires |tokens| == |uses| && tokens != []
    ensures FixedAccepted(cl, tokens, uses) <==>
      (uses[0].AsFixed? ==> Accepted(cl, tokens[0], uses[0])) && FixedAccepted(cl, tokens[1..], uses[1..])
    ensures FloatingAccepted(cl, tokens, uses) <==>
      (uses[0].AsFloating? ==> Accepted(cl, tokens[0], uses[0])) && FloatingAccepted(cl, tokens[1..], uses[1..])
  {
    var rest, more := tokens[1..], uses[1..];
    assert forall k :: 0 < k < |tokens| ==> tokens[k] == rest[k - 1] && uses[k] == more[k - 1];
    assert forall k :: 0 <= k < |rest| ==> rest[k] == tokens[k + 1] && more[k] == uses[k + 1];
  }

  lemma {:induction false} FixedSucceedsExactly(cl: CommandLine, tokens: seq<Token>, position: int, config: Config)
    ensures FixedArgs(cl, tokens, position, config).Done? <==> FixedAccepted(cl, tokens, Uses(cl, tokens, position))
    decreases |tokens|
  {
    if tokens != [] {
      var next := if tokens[0].kind == Positional then position + 1 else position;
      var fields := if position in cl.positionalArgs then config + [Setting(FixedField(position), tokens[0].data)] else config;
      AcceptedCons(cl, tokens, Uses(cl, tokens, position));
      FixedSucceedsExactly(cl, tokens[1..], next, fields);
    }
  }

  lemma {:induction false} FloatingSucceedsExactly(cl: CommandLine, tokens: seq<Token>, position: int, config: Config)
    ensures
      var uses := Uses(cl, tokens, position);
      FloatingArgs(cl, NotFixed(tokens, uses), config).Done? <==> FloatingAccepted(cl, tokens, uses)
    decreases |tokens|
  {
    if tokens != [] {
      var token, uses := tokens[0], Uses(cl, tokens, position);
      var next := if token.kind == Positional then position + 1 else position;
      var more := NotFixed(tokens[1..], Uses(cl, tokens[1..], next));
      assert uses[1..] == Uses(cl, tokens[1..], next);
      AcceptedCons(cl, tokens, uses);
      FloatingSucceedsExactly(cl, tokens[1..], next, config + FloatingSetting(token, uses[0]));
      if uses[0].AsFixed? {
        assert NotFixed(tokens, uses) == [] + more == more;
        assert config + FloatingSetting(token, uses[0]) == config;
      } else {
        assert NotFixed(tokens, uses)[1..] == more && config + [] == config;
      }
    }
  }

  /** Populating succeeds exactly when something was specified, the tokens spell out options, and every
      other token is accepted where it is used. */
  lemma {:induction false} SucceedsExactly(cl: CommandLine, tokens: seq<Token>)
    ensures Populated(cl, tokens).Done? <==>
      && (cl.options != [] || cl.positionalArgs != map[] || cl.floatingArg.Some?)
      && exists items :: Spells(cl, items, tokens) && AllAccepted(cl, LooseTokens(items), Uses(cl, LooseTokens(items), 1))
  {
    if Populated(cl, tokens).Done? {
      var items := TokensConserved(cl, tokens);
      OptionsReadBack(cl, items, []);
      ArgumentsSucceedExactly(cl, items);
    }
    if items :| Spells(cl, items, tokens) && AllAccepted(cl, LooseTokens(items), Uses(cl, LooseTokens(items), 1)) {
      OptionsReadBack(cl, items, []);
      ArgumentsSucceedExactly(cl, items);
    }
  }

  lemma {:induction false} ArgumentsSucceedExactly(cl: CommandLine, items: seq<Item>)
    ensures
      var loose := LooseTokens(items);
      var f := FixedArgs(cl, loose, 1, [] + AllSettings(items));
      f.Done? && FloatingArgs(cl, f.unused, f.config).Done? <==> AllAccepted(cl, loose, Uses(cl, loose, 1))
  {
    var loose, uses, config := LooseTokens(items), Uses(cl, LooseTokens(items), 1), [] + AllSettings(items);
    FixedSucceedsExactly(cl, loose, 1, config);
    var f := FixedArgs(cl, loose, 1, config);
    if f.Done? {
      FixedArgsUse(cl, loose, 1, config);
      FloatingSucceedsExactly(cl, loose, 1, f.config);
    }
  }

  // ----- when a fixed argument is set more than once -----

  /** The position of the fixed argument that is due at token `k`. */
  function Due(tokens: seq<Token>, position: int, k: nat): int
    requires k <= |tokens|
  {
    if k == 0 then position
    else Due(tokens[1..], if tokens[0].kind == Positional then position + 1 else position, k - 1)
  }

  /** The fixed argument a token is used for is the one that is due, if there is one. */
  lemma {:induction false} UseAt(cl: CommandLine, tokens: seq<Token>, position: int, k: nat)
    requires k < |tokens|
    ensures
      var due, use := Due(tokens, position, k), Uses(cl, tokens, position)[k];
      if due in cl.positionalArgs then use == AsFixed(due)
      else use == if tokens[k].kind == Positional && cl.floatingArg.Some? then AsFloating else Left
  {
    if k > 0 {
      UseAt(cl, tokens[1..], if tokens[0].kind == Positional then position + 1 else position, k - 1);
    }
  }

  lemma {:induction false} DueNext(tokens: seq<Token>, position: int, k: nat)
    requires k < |tokens|
    ensures Due(tokens, position, k + 1) == Due(tokens, position, k) + if tokens[k].kind == Positional then 1 else 0
  {
    if k > 0 {
      DueNext(tokens[1..], if tokens[0].kind == Positional then position + 1 else position, k - 1);
    }
  }

  lemma {:induction false} DueGrows(tokens: seq<Token>, position: int, k: nat, l: nat)
    requires k <= l <= |tokens|
    ensures Due(tokens, position, k) <= Due(tokens, position, l)
    decreases l - k
  {
    if k < l {
      DueNext(tokens, position, l - 1);
      DueGrows(tokens, position, k, l - 1);
    }
  }

  /** A token that is not positional and not the last stands where a fixed argument is due. */
  ghost predicate Intrudes(cl: CommandLine, tokens: seq<Token>, k: nat)
  {
    k + 1 < |tokens| && tokens[k].kind != Positional && Due(tokens, 1, k) in cl.positionalArgs
  }

  ghost predicate BothFixed(uses: seq<Use>, k: nat, l: nat)
  {
    k < l < |uses| && uses[k].AsFixed? && uses[l] == uses[k]
  }

  /** Two tokens are used for the same fixed argument exactly when some token intrudes. */
  lemma {:induction false} SharedPositionExactly(cl: CommandLine, tokens: seq<Token>)
    ensures (exists k: nat, l: nat :: BothFixed(Uses(cl, tokens, 1), k, l)) <==> exists k: nat :: Intrudes(cl, tokens, k)
  {
    var uses := Uses(cl, tokens, 1);
    if k: nat, l: nat :| BothFixed(uses, k, l) {
      UseAt(cl, tokens, 1, k);
      UseAt(cl, tokens, 1, l);
      DueNext(tokens, 1, k);
      DueGrows(tokens, 1, k + 1, l);
      assert Intrudes(cl, tokens, k);
    }
    if k: nat :| Intrudes(cl, tokens, k) {
      DueNext(tokens, 1, k);
      UseAt(cl, tokens, 1, k);
      UseAt(cl, tokens, 1, k + 1);
      assert BothFixed(uses, k, k + 1);
    }
  }

  /** How often a configuration sets a field. */
  function TimesSet(config: Config, target: Target): nat
  {
    if config == [] then 0 else (if config[0].target == target then 1 else 0) + TimesSet(config[1..], target)
  }

  lemma {:induction false} TimesSetConcat(a: Config, b: Config, target: Target)
    ensures TimesSet(a + b, target) == TimesSet(a, target) + TimesSet(b, target)
  {
    if a == [] {
      assert a + b == b;
    } else {
      TimesSetConcat(a[1..], b, target);
      assert (a + b)[1..] == a[1..] + b;
    }
  }

  function TimesUsed(uses: seq<Use>, position: int): nat
  {
    if uses == [] then 0 else (if uses[0] == AsFixed(position) then 1 else 0) + TimesUsed(uses[1..], position)
  }

  lemma {:induction false} TimesUsedTwice(uses: seq<Use>, k: nat, l: nat)
    requires BothFixed(uses, k, l)
    ensures TimesUsed(uses, uses[k].position) >= 2
  {
    if k > 0 {
      TimesUsedTwice(uses[1..], k - 1, l - 1);
    } else {
      UsedOnce(uses[1..], l - 1, uses[0].position);
    }
  }

  lemma {:induction false} UsedOnce(uses: seq<Use>, l: nat, position: int)
    requires l < |uses| && uses[l] == AsFixed(position)
    ensures TimesUsed(uses, position) >= 1
  {
    if l > 0 {
      UsedOnce(uses[1..], l - 1, position);
    }
  }

  lemma {:induction false} FindUse(uses: seq<Use>, position: int) returns (l: nat)
    requires TimesUsed(uses, position) >= 1
    ensures l < |uses| && uses[l] == AsFixed(position)
  {
    if uses[0] == AsFixed(position) {
      l := 0;
    } else {
      l := FindUse(uses[1..], position);
      l := l + 1;
    }
  }

  lemma {:induction false} FindTwoUses(uses: seq<Use>, position: int) returns (k: nat, l: nat)
    requires TimesUsed(uses, position) >= 2
    ensures BothFixed(uses, k, l)
  {
    if uses[0] == AsFixed(position) {
      k := 0;
      l := FindUse(uses[1..], position);
      l := l + 1;
    } else {
      k, l := FindTwoUses(uses[1..], position);
      k, l := k + 1, l + 1;
    }
  }

  lemma {:induction false} OptionsSetNoPosition(items: seq<Item>, position: int)
    ensures TimesSet(AllSettings(items), FixedField(position)) == 0
  {
    if items != [] {
      OptionsSetNoPosition(items[1..], position);
      TimesSetConcat(SettingsOf(items[0]), AllSettings(items[1..]), FixedField(position));
    }
  }

  lemma {:induction false} UsesSetPositions(tokens: seq<Token>, uses: seq<Use>, position: int)
    requires |tokens| == |uses|
    ensures TimesSet(FixedSettings(tokens, uses), FixedField(position)) == TimesUsed(uses, position)
    ensures TimesSet(FloatingSettings(tokens, uses), FixedField(position)) == 0
  {
    if tokens != [] {
      var target := FixedField(position);
      UsesSetPositions(tokens[1..], uses[1..], position);
      TimesSetConcat(FixedSetting(tokens[0], uses[0]), FixedSettings(tokens[1..], uses[1..]), target);
      TimesSetConcat(FloatingSetting(tokens[0], uses[0]), FloatingSettings(tokens[1..], uses[1..]), target);
    }
  }

  lemma {:induction false} TimesSetIsTimesUsed(cl: CommandLine, tokens: seq<Token>, position: int)
    requires Populated(cl, tokens).Done?
    ensures Options(cl, tokens, []).Done?
    ensures TimesSet(Populated(cl, tokens).config, FixedField(position)) ==
      TimesUsed(Uses(cl, Options(cl, tokens, []).unused, 1), position)
  {
    var items := TokensConserved(cl, tokens);
    OptionsReadBack(cl, items, []);
    var loose, target := LooseTokens(items), FixedField(position);
    var uses := Uses(cl, loose, 1);
    TimesSetConcat(AllSettings(items) + FixedSettings(loose, uses), FloatingSettings(loose, uses), target);
    TimesSetConcat(AllSettings(items), FixedSettings(loose, uses), target);
    OptionsSetNoPosition(items, position);
    UsesSetPositions(loose, uses, position);
  }

  /** Every fixed argument is set at most once exactly when no token that the options left intrudes. */
  lemma {:induction false} FixedSetOnceExactly(cl: CommandLine, tokens: seq<Token>)
    requires Populated(cl, tokens).Done?
    ensures Options(cl, tokens, []).Done?
    ensures (forall p :: TimesSet(Populated(cl, tokens).config, FixedField(p)) <= 1) <==>
      !exists k: nat :: Intrudes(cl, Options(cl, tokens, []).unused, k)
  {
    TimesSetIsTimesUsed(cl, tokens, 0);
    var loose := Options(cl, tokens, []).unused;
    var uses := Uses(cl, loose, 1);
    SharedPositionExactly(cl, loose);
    if k: nat, l: nat :| BothFixed(uses, k, l) {
      TimesUsedTwice(uses, k, l);
      TimesSetIsTimesUsed(cl, tokens, uses[k].position);
    } else {
      forall p ensures TimesSet(Populated(cl, tokens).config, FixedField(p)) <= 1 {
        TimesSetIsTimesUsed(cl, tokens, p);
        if TimesUsed(uses, p) >= 2 {
          var k, l := FindTwoUses(uses, p);
        }
      }
    }
  }

  // ----- strict command lines -----

  lemma {:induction false} LooseTokensPositional(cl: CommandLine, items: seq<Item>)
    requires ValidItems(cl, items) && cl.throwOnUnrecognisedTokens
    ensures forall i :: 0 <= i < |LooseTokens(items)| ==> LooseTokens(items)[i].kind == Positional
  {
    if items != [] {
      LooseTokensPositional(cl, items[1..]);
    }
  }

  /** Where all loose tokens are positional, the k-th one is the k-th fixed argument, if there is one,
      and otherwise a floating one, if there are any. */
  lemma {:induction false} PositionalUses(cl: CommandLine, tokens: seq<Token>, position: int, k: nat)
    requires k < |tokens| && forall i :: 0 <= i < |tokens| ==> tokens[i].kind == Positional
    ensures Uses(cl, tokens, position)[k] ==
      if position + k in cl.positionalArgs then AsFixed(position + k)
      else if cl.floatingArg.Some? then AsFloating else Left
  {
    if k > 0 {
      PositionalUses(cl, tokens[1..], position + 1, k - 1);
    }
  }

  /** An option nobody knows is taken for the fixed argument that is due, which the next token then
      is again, where unrecognised options are let through. */
  lemma {:induction false} UnknownOptionTakenForArgument(cl: CommandLine)
    requires cl.options == [] && !cl.throwOnUnrecognisedTokens && cl.floatingArg.None?
    requires 1 in cl.positionalArgs && cl.positionalArgs[1].accepts("x") && cl.positionalArgs[1].accepts("a")
    ensures Populated(cl, [Token(LongOpt, "x"), Token(Positional, "a")])
      == Done([Setting(FixedField(1), "x"), Setting(FixedField(1), "a")], [])
  {
    var x, a := Token(LongOpt, "x"), Token(Positional, "a");
    assert [x, a][1..] == [a] && [a][1..] == [];
    assert Options(cl, [a], []) == Done([], [a]);
    assert Options(cl, [x, a], []) == Done([], [x, a]);
    assert FixedArgs(cl, [a], 1, [Setting(FixedField(1), "x")]) == Done([Setting(FixedField(1), "x"), Setting(FixedField(1), "a")], []);
  }
}
