/** The Identity session of core.go and validate.go: a name, its validators and
    its suggestors, and the suggestion engine that runs the shuffled suggestors
    and keeps the distinct outputs every validator accepts. */
module Core {
  import opened Chars
  import opened Helper
  import opened Validate

  /** A suggestor: the sixteen defaults of core.go, named after the helper they
      call, or a caller's own function. */
  datatype Suggestor =
    | PrefixDigits | SuffixDigits | SepDigits
    | PenultimateSep | PostInitialSep
    | PenultimateSepDigit | PostInitialSepDigit
    | SwapChars
    | PrefixRepeat | SuffixRepeat | SubfixRepeat | VowelRepeat | InitialRepeatDigit
    | AlphabetSwapped | VowelSwapped
    | VowelVanished
    | Custom(suggest: Bytes -> Bytes)

  /** The random choices one suggestor call makes: coin flips for the vowel
      scans, the band a Set* function picks, and the number it draws. */
  datatype Draw = Draw(coins: seq<bool>, band: nat, k: nat)

  /** The draw is one the random source can produce for this suggestor, and
      the name is one on which the suggestor does not panic. */
  predicate Defined(sug: Suggestor, s: Bytes, d: Draw) {
    match sug
    case PrefixDigits => d.band < 3 && PrefixLower(BandRange(d.band)) <= d.k < BandRange(d.band)
    case SuffixDigits => d.band < 3 && d.k < BandRange(d.band)
    case SepDigits => d.band < 3 && d.k < BandRange(d.band)
    case PenultimateSep => |s| > 0
    case PostInitialSep => |s| > 0
    case PenultimateSepDigit => d.k < 10
    case PostInitialSepDigit => d.k < 10
    case SwapChars => true
    case PrefixRepeat => |s| > 0
    case SuffixRepeat => |s| > 0
    case SubfixRepeat => |s| > 0
    case VowelRepeat => true
    case InitialRepeatDigit => |s| > 0 && d.k < 10
    case AlphabetSwapped => true
    case VowelSwapped => HasEligible(s, false)
    case VowelVanished => true
    case Custom(_) => true
  }

  /** What a suggestor returns on s under the draw d. */
  function Output(sug: Suggestor, s: Bytes, d: Draw): Bytes
    requires Defined(sug, s, d)
  {
    match sug
    case PrefixDigits => SetPrefixRandomDigit(s, d.band, d.k)
    case SuffixDigits => SetSuffixRandomDigit(s, d.band, d.k)
    case SepDigits => SetSepWithRandomDigit(s, d.band, d.k)
    case PenultimateSep => SetPenultimateSep(s, Separator)
    case PostInitialSep => SetPostInitialSep(s, Separator)
    case PenultimateSepDigit => SetPenultimateSepDigit(s, Separator, d.k)
    case PostInitialSepDigit => SetPostInitialSepDigit(s, Separator, d.k)
    case SwapChars => SwappedTwoChars(s)
    case PrefixRepeat => RepeatPrefix(s)
    case SuffixRepeat => RepeatSuffix(s)
    case SubfixRepeat => RepeatSubfix(s)
    case VowelRepeat => RepeatedVowel(s, d.coins)
    case InitialRepeatDigit => RepeatInitialAppendDigit(s, 10, d.k)
    case AlphabetSwapped => MappedBytes(s, AlphabetSwap)
    case VowelSwapped => TransformedVowel(s, d.coins, VowelSwap)
    case VowelVanished => VanishedVowel(s, d.coins)
    case Custom(f) => f(s)
  }

  /** Calling one suggestor; the buffer-editing helpers run as methods. */
  method Invoke(sug: Suggestor, s: Bytes, d: Draw) returns (r: Bytes)
    requires Defined(sug, s, d)
    ensures r == Output(sug, s, d)
  {
    match sug {
      case PrefixDigits => r := SetPrefixRandomDigit(s, d.band, d.k);
      case SuffixDigits => r := SetSuffixRandomDigit(s, d.band, d.k);
      case SepDigits => r := SetSepWithRandomDigit(s, d.band, d.k);
      case PenultimateSep => r := SetPenultimateSep(s, Separator);
      case PostInitialSep => r := SetPostInitialSep(s, Separator);
      case PenultimateSepDigit => r := SetPenultimateSepDigit(s, Separator, d.k);
      case PostInitialSepDigit => r := SetPostInitialSepDigit(s, Separator, d.k);
      case SwapChars => r := SwapTwoChars(s);
      case PrefixRepeat => r := RepeatPrefix(s);
      case SuffixRepeat => r := RepeatSuffix(s);
      case SubfixRepeat => r := RepeatSubfix(s);
      case VowelRepeat => r := RepeatVowel(s, d.coins);
      case InitialRepeatDigit => r := RepeatInitialAppendDigit(s, 10, d.k);
      case AlphabetSwapped => r := AlphabetTransform(s, AlphabetSwap);
      case VowelSwapped => r := VowelTransform(s, d.coins, VowelSwap);
      case VowelVanished => r := VanishVowel(s, d.coins);
      case Custom(f) => r := f(s);
    }
  }

  /** defaultSuggestors, in its order. */
  function DefaultSuggestors(): (r: seq<Suggestor>)
    ensures |r| == 16
    ensures forall i, j :: 0 <= i < j < |r| ==> r[i] != r[j]
  {
    [PrefixDigits, SuffixDigits, SepDigits,
     PenultimateSep, PostInitialSep,
     PenultimateSepDigit, PostInitialSepDigit,
     SwapChars,
     PrefixRepeat, SuffixRepeat, SubfixRepeat, VowelRepeat, InitialRepeatDigit,
     AlphabetSwapped, VowelSwapped,
     VowelVanished]
  }

  /** On a non-empty name with a vowel, every default suggestor is defined
      under a draw of the single-digit band (band 2) with a number below 10. */
  lemma DefaultsDefined(s: Bytes, d: Draw)
    requires |s| > 0 && HasEligible(s, false)
    requires d.band == 2 && d.k < 10
    ensures forall i :: 0 <= i < 16 ==> Defined(DefaultSuggestors()[i], s, d)
  {
    forall i | 0 <= i < 16
      ensures Defined(DefaultSuggestors()[i], s, d)
    {
      assert PrefixLower(BandRange(d.band)) <= d.k < BandRange(d.band);
    }
  }

  /** What isValid accepts, once the validator list is non-empty. */
  predicate Accepted(rules: seq<Rule>, uname: Bytes, x: Bytes) {
    AllPass(rules, x) && x != uname
  }

  /** The position of the first occurrence of x in outs. */
  function FirstIndex(outs: seq<Bytes>, x: Bytes): (i: nat)
    requires x in outs
    ensures i < |outs| && outs[i] == x && x !in outs[..i]
  {
    if outs[0] == x then 0
    else
      assert outs == [outs[0]] + outs[1..];
      var j := FirstIndex(outs[1..], x);
      assert outs[..j + 1] == [outs[0]] + outs[1..][..j];
      j + 1
  }

  /** A first occurrence inside a prefix is the first occurrence in the whole. */
  lemma FirstIndexInPrefix(outs: seq<Bytes>, n: nat, x: Bytes)
    requires n <= |outs| && x in outs[..n]
    ensures FirstIndex(outs, x) == FirstIndex(outs[..n], x)
  {
  }

  /** The suggestions the loop of Suggest keeps from a run of outputs: the
      accepted ones, each once, at its first occurrence. */
  function Kept(outs: seq<Bytes>, rules: seq<Rule>, uname: Bytes): (r: seq<Bytes>)
    ensures |r| <= |outs|
    ensures forall x :: x in r ==> x in outs && Accepted(rules, uname, x)
    ensures forall x :: x in outs && Accepted(rules, uname, x) ==> x in r
    ensures forall i, j :: 0 <= i < j < |r| ==> r[i] != r[j]
  {
    if outs == [] then []
    else
      var n := |outs| - 1;
      var p := Kept(outs[..n], rules, uname);
      var x := outs[n];
      assert outs == outs[..n] + [x];
      if Accepted(rules, uname, x) && x !in p then p + [x] else p
  }

  /** What is kept keeps the order in which the outputs first appeared. */
  lemma {:induction false} KeptInOrder(outs: seq<Bytes>, rules: seq<Rule>, uname: Bytes)
    ensures var r := Kept(outs, rules, uname);
      forall i, j :: 0 <= i < j < |r| ==> FirstIndex(outs, r[i]) < FirstIndex(outs, r[j])
  {
    if outs != [] {
      var n := |outs| - 1;
      var prefix, x := outs[..n], outs[n];
      assert outs == prefix + [x];
      var p := Kept(prefix, rules, uname);
      KeptInOrder(prefix, rules, uname);
      KeptSnoc(prefix, x, rules, uname);
      var r := Kept(outs, rules, uname);
      assert r[..|p|] == p;
      forall i, j | 0 <= i < j < |r|
        ensures FirstIndex(outs, r[i]) < FirstIndex(outs, r[j])
      {
        FirstIndexInPrefix(outs, n, p[i]);
        if j < |p| {
          FirstIndexInPrefix(outs, n, p[j]);
        } else {
          assert r[j] == x && x !in prefix;
        }
      }
    }
  }

  /** One more output is kept exactly when it is accepted and not yet kept. */
  lemma KeptSnoc(outs: seq<Bytes>, x: Bytes, rules: seq<Rule>, uname: Bytes)
    ensures var p := Kept(outs, rules, uname);
      Kept(outs + [x], rules, uname) == if Accepted(rules, uname, x) && x !in p then p + [x] else p
  {
    assert (outs + [x])[..|outs|] == outs;
  }

  /** When every output is accepted and they are all different, every one is kept, in order. */
  lemma {:induction false} KeptAllFresh(outs: seq<Bytes>, rules: seq<Rule>, uname: Bytes)
    requires forall i :: 0 <= i < |outs| ==> Accepted(rules, uname, outs[i])
    requires forall i, j :: 0 <= i < j < |outs| ==> outs[i] != outs[j]
    ensures Kept(outs, rules, uname) == outs
  {
    if outs != [] {
      var n := |outs| - 1;
      var prefix, x := outs[..n], outs[n];
      KeptAllFresh(prefix, rules, uname);
      assert x !in prefix;
      KeptSnoc(prefix, x, rules, uname);
      assert prefix + [x] == outs;
    }
  }

  /** The outputs of a run of suggestors on s, the i-th under draws[i]. */
  function Outputs(sugs: seq<Suggestor>, s: Bytes, draws: seq<Draw>): (r: seq<Bytes>)
    requires |draws| >= |sugs|
    requires forall i :: 0 <= i < |sugs| ==> Defined(sugs[i], s, draws[i])
    ensures |r| == |sugs|
  {
    seq(|sugs|, i requires 0 <= i < |sugs| => Output(sugs[i], s, draws[i]))
  }

  /** Running one more suggestor adds its output to what is kept exactly when
      it is accepted and new. */
  lemma KeptStep(sugs: seq<Suggestor>, s: Bytes, draws: seq<Draw>, i: nat, rules: seq<Rule>)
    requires i < |sugs| <= |draws|
    requires forall j :: 0 <= j < |sugs| ==> Defined(sugs[j], s, draws[j])
    ensures var x := Output(sugs[i], s, draws[i]);
      var p := Kept(Outputs(sugs[..i], s, draws), rules, s);
      Kept(Outputs(sugs[..i + 1], s, draws), rules, s) == if Accepted(rules, s, x) && x !in p then p + [x] else p
  {
    var o := Outputs(sugs[..i + 1], s, draws);
    assert o[..i] == Outputs(sugs[..i], s, draws);
  }

  /** How many suggestors Suggest calls: the capacity, cut down to the list. */
  function Examined(capacity: nat, n: nat): (m: nat)
    ensures m <= capacity && m <= n && (m == capacity || m == n)
  {
    if capacity > n then n else capacity
  }

  class Identity {
    var uname: Bytes
    var validator: seq<Rule>
    var suggestor: seq<Suggestor>

    /** New: the given name, or "default" when there is none, with fresh
        default validators and suggestors. */
    constructor New(username: seq<Bytes>)
      ensures uname == (if |username| > 0 then username[0] else Ascii("default"))
      ensures validator == DefaultValidator() && suggestor == DefaultSuggestors()
    {
      uname := Ascii("default");
      validator := DefaultValidator();
      suggestor := DefaultSuggestors();
      new;
      if |username| > 0 {
        uname := username[0];
      }
    }

    /** On: sets the name and nothing else. */
    method On(username: Bytes) returns (self: Identity)
      modifies this
      ensures self == this
      ensures uname == username
      ensures validator == old(validator) && suggestor == old(suggestor)
    {
      uname := username;
      return this;
    }

    /** WithValidator: replaces the validator list wholesale. */
    method WithValidator(validators: seq<Rule>) returns (self: Identity)
      modifies this
      ensures self == this
      ensures validator == validators
      ensures uname == old(uname) && suggestor == old(suggestor)
    {
      validator := validators;
      return this;
    }

    /** WithSuggestor: replaces the suggestor list wholesale. */
    method WithSuggestor(suggestors: seq<Suggestor>) returns (self: Identity)
      modifies this
      ensures self == this
      ensures suggestor == suggestors
      ensures uname == old(uname) && validator == old(validator)
    {
      suggestor := suggestors;
      return this;
    }

    /** isSymmetric: the suggestion is the name itself. */
    predicate IsSymmetric(suggestion: Bytes)
      reads this
    {
      uname == suggestion
    }

    /** Validate: the extras stay appended for good; the validators run on the
        name in order and the first refusal's error is returned. */
    method Validate(validators: seq<Rule>) returns (err: Option<Error>)
      modifies this
      ensures validator == old(validator) + validators
      ensures uname == old(uname) && suggestor == old(suggestor)
      ensures err == FirstError(validator, uname)
    {
      if |validators| > 0 {
        validator := validator + validators;
      }
      var rules := validator;
      for i := 0 to |rules|
        invariant validator == rules && uname == old(uname) && suggestor == old(suggestor)
        invariant forall j :: 0 <= j < i ==> Passes(rules[j], uname)
      {
        var v := Run(rules[i], uname);
        if !v.ok {
          return v.err;
        }
      }
      return None;
    }

    /** isValid: an empty validator list is first replaced by the defaults;
        then the suggestion must pass every validator and differ from the name. */
    method IsValid(suggestion: Bytes) returns (ok: bool)
      modifies this
      ensures validator == (if |old(validator)| == 0 then DefaultValidator() else old(validator))
      ensures uname == old(uname) && suggestor == old(suggestor)
      ensures ok <==> Accepted(validator, uname, suggestion)
    {
      if |validator| <= 0 {
        validator := DefaultValidator();
      }
      var rules := validator;
      for i := 0 to |rules|
        invariant validator == rules && uname == old(uname) && suggestor == old(suggestor)
        invariant forall j :: 0 <= j < i ==> Passes(rules[j], suggestion)
        invariant i > 0 ==> !IsSymmetric(suggestion)
      {
        var v := Run(rules[i], suggestion);
        if !v.ok || IsSymmetric(suggestion) {
          return false;
        }
      }
      return true;
    }

    /** Suggest: appends the extras, shuffles the list in place, runs the first
        min(capacity, length) suggestors on the name and keeps each accepted
        output once, in the order first produced. */
    method Suggest(capacity: int, extras: seq<Suggestor>, swaps: seq<nat>, draws: seq<Draw>)
      returns (suggestions: seq<Bytes>)
      requires capacity >= 0
      requires ValidSwaps(|suggestor| + |extras|, swaps)
      requires var sh := Shuffled(suggestor + extras, swaps);
        var m := Examined(capacity, |sh|);
        |draws| >= m && forall i :: 0 <= i < m ==> Defined(sh[i], uname, draws[i])
      modifies this
      ensures suggestor == Shuffled(old(suggestor) + extras, swaps)
      ensures multiset(suggestor) == multiset(old(suggestor) + extras)
      ensures |suggestor| == |old(suggestor)| + |extras|
      ensures uname == old(uname)
      ensures validator == (if |old(validator)| == 0 && Examined(capacity, |suggestor|) > 0
                            then DefaultValidator() else old(validator))
      ensures suggestions == Kept(Outputs(suggestor[..Examined(capacity, |suggestor|)], uname, draws),
                                  validator, uname)
      ensures |suggestions| <= Examined(capacity, |suggestor|)
      ensures forall x :: x in suggestions ==> AllPass(validator, x) && x != uname
      ensures forall i, j :: 0 <= i < j < |suggestions| ==> suggestions[i] != suggestions[j]
    {
      AppendAndShuffle(extras, swaps);
      var cap := capacity;
      if cap > |suggestor| {
        cap := |suggestor|;
      }
      suggestions := Collect(cap, draws);
    }

    /** The first steps of Suggest: the extras are appended to the list for
        good, and the whole list is shuffled in place. */
    method AppendAndShuffle(extras: seq<Suggestor>, swaps: seq<nat>)
      requires ValidSwaps(|suggestor| + |extras|, swaps)
      modifies this
      ensures suggestor == Shuffled(old(suggestor) + extras, swaps)
      ensures multiset(suggestor) == multiset(old(suggestor) + extras)
      ensures |suggestor| == |old(suggestor)| + |extras|
      ensures uname == old(uname) && validator == old(validator)
    {
      var list := suggestor;
      if |extras| > 0 {
        list := list + extras;
      }
      assert list == old(suggestor) + extras;
      var a := new Suggestor[|list|](i requires 0 <= i < |list| => list[i]);
      assert a[..] == list;
      ShuffleSuggestors(a, swaps);
      suggestor := a[..];
    }

    /** The loop of Suggest: the first cap suggestors of the list run on the
        name; each output isValid accepts is kept unless already seen. */
    method Collect(cap: nat, draws: seq<Draw>) returns (suggestions: seq<Bytes>)
      requires cap <= |suggestor| && cap <= |draws|
      requires forall j :: 0 <= j < cap ==> Defined(suggestor[j], uname, draws[j])
      modifies this
      ensures uname == old(uname) && suggestor == old(suggestor)
      ensures validator == (if |old(validator)| == 0 && cap > 0 then DefaultValidator() else old(validator))
      ensures suggestions == Kept(Outputs(suggestor[..cap], uname, draws), validator, uname)
    {
      ghost var rules := if |validator| == 0 && cap > 0 then DefaultValidator() else validator;
      var sugs := suggestor[..cap];
      var name := uname;
      suggestions := [];
      var seen: set<Bytes> := {};
      for i := 0 to cap
        invariant uname == name && suggestor == old(suggestor)
        invariant validator == (if i == 0 then old(validator) else rules)
        invariant suggestions == Kept(Outputs(sugs[..i], name, draws), rules, name)
        invariant forall x :: x in seen <==> x in suggestions
        invariant forall j :: 0 <= j < |sugs| ==> Defined(sugs[j], name, draws[j])
      {
        var suggestion := Invoke(sugs[i], name, draws[i]);
        KeptStep(sugs, name, draws, i, rules);
        var ok := IsValid(suggestion);
        var keep := ok && suggestion !in seen;
        suggestions := if keep then suggestions + [suggestion] else suggestions;
        seen := if keep then seen + {suggestion} else seen;
      }
      assert sugs[..cap] == sugs;
    }
  }
}
