/** Run configuration read from the environment: the list of random seeds, given as a
    comma-separated string of integers. */
module Environment {
  import opened Wrappers
  import opened Text

  /** `int(x.strip())`, with the ValueError of a token that is not an integer. */
  function ParseToken(x: string): (r: Result<int>)
    ensures r.Success? <==> ParseInt(Strip(x)).Some?
    ensures r.Success? ==> r.value == ParseInt(Strip(x)).value
    ensures r.Failure? ==> r.error == ValueError
  {
    match ParseInt(Strip(x))
    case Some(v) => Success(v)
    case None => Failure(ValueError)
  }

  /** The pieces `s.strip().split(',')` hands to `int`. */
  function Tokens(s: string): (r: seq<string>)
    ensures |r| >= 1
  {
    Split(Strip(s), ',')
  }

  /** `_parse_comma_separated_integers(s)` */
  function ParseCommaSeparatedIntegers(s: string): (r: Result<seq<int>>)
    ensures Strip(s) == [] ==> r == Success([])
    ensures Strip(s) != [] && r.Success? ==> |r.value| == |Tokens(s)|
    ensures r.Failure? ==> r.error == ValueError
  {
    if Strip(s) == [] then Success([])
    else
      var pieces := Tokens(s);
      var rs := seq(|pieces|, k requires 0 <= k < |pieces| => ParseToken(pieces[k]));
      var c := Collect(rs);
      if c.Failure? then CollectFails(rs); c else c
  }

  /** A non-blank input parses exactly when every comma-separated token is an integer, and then
      the k-th result is the k-th token's value. */
  lemma ParseTokens(s: string)
    requires Strip(s) != []
    ensures ParseCommaSeparatedIntegers(s).Success? <==>
              forall k :: 0 <= k < |Tokens(s)| ==> ParseInt(Strip(Tokens(s)[k])).Some?
    ensures ParseCommaSeparatedIntegers(s).Success? ==>
              forall k :: 0 <= k < |Tokens(s)| ==>
                ParseCommaSeparatedIntegers(s).value[k] == ParseInt(Strip(Tokens(s)[k])).value
  {
    var pieces := Tokens(s);
    var rs := seq(|pieces|, k requires 0 <= k < |pieces| => ParseToken(pieces[k]));
    if Collect(rs).Success? {
      forall k | 0 <= k < |pieces|
        ensures ParseInt(Strip(pieces[k])).Some? && Collect(rs).value[k] == ParseInt(Strip(pieces[k])).value
      {
        CollectAt(rs, k);
      }
    } else {
      CollectFails(rs);
    }
  }

  /** An empty token, as in "1,,2", raises ValueError. */
  lemma EmptyTokenFails()
    ensures ParseCommaSeparatedIntegers("1,,2") == Failure(ValueError)
  {
    var s := "1,,2";
    StripUntrimmed(s);
    assert Split(s, ',') == ["1", "", "2"] by {
      SplitAtSeparator("1", ',', ",2");
      assert s == "1" + [','] + ",2";
      SplitAtSeparator("", ',', "2");
      assert ",2" == "" + [','] + "2";
      SplitWithoutSeparator("2", ',');
    }
    ParseTokens(s);
    assert Strip(Tokens(s)[1]) == "";
  }

  /** `",".join(map(str, xs))` */
  function Render(xs: seq<int>): string
  {
    Join(seq(|xs|, i requires 0 <= i < |xs| => IntToString(xs[i])), ',')
  }

  /** Parsing what `",".join(map(str, xs))` renders gives `xs` back. */
  lemma ParseRender(xs: seq<int>)
    ensures ParseCommaSeparatedIntegers(Render(xs)) == Success(xs)
  {
    var strs := seq(|xs|, i requires 0 <= i < |xs| => IntToString(xs[i]));
    var s := Join(strs, ',');
    if xs == [] {
      assert s == "";
    } else {
      JoinNoSpace(strs, ',');
      StripNoSpace(s);
      SplitJoin(strs, ',');
      assert Tokens(s) == strs;
      var rs := seq(|strs|, k requires 0 <= k < |strs| => ParseToken(strs[k]));
      forall k | 0 <= k < |strs|
        ensures rs[k] == Success(xs[k])
      {
        StripNoSpace(strs[k]);
        IntToStringRoundTrip(xs[k]);
      }
      CollectAll(rs, xs);
    }
  }

  /** The seeds used when RANDOM_SEEDS is unset. */
  const DefaultRandomSeeds: string := "100,200,300"

  /** `_get_seeds_from_env_or_else_default()`, given the variable's value if it is set. */
  function RandomSeeds(env: Option<string>): (r: Result<seq<int>>)
  {
    ParseCommaSeparatedIntegers(if env.Some? then env.value else DefaultRandomSeeds)
  }

  /** Without RANDOM_SEEDS the seeds are 100, 200 and 300. */
  lemma DefaultSeeds()
    ensures RandomSeeds(None) == Success([100, 200, 300])
  {
    DefaultRendered();
    ParseRender([100, 200, 300]);
  }

  /** The default string is what rendering 100, 200 and 300 gives. */
  lemma DefaultRendered()
    ensures Render([100, 200, 300]) == DefaultRandomSeeds
  {
    HundredsRendered();
    var strs := seq(3, i requires 0 <= i < 3 => IntToString([100, 200, 300][i]));
    assert strs == ["100", "200", "300"];
    assert Join(["300"], ',') == "300";
    assert Join(["200", "300"], ',') == "200,300";
  }

  lemma HundredsRendered()
    ensures IntToString(100) == "100" && IntToString(200) == "200" && IntToString(300) == "300"
  {
    assert IntToString(100) == "100";
    assert IntToString(200) == "200";
  }
}
