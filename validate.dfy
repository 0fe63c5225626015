/** The validation rules of validate.go: the three default validators, the
    first-failure semantics of a validator list and the built-in blacklist. */
module Validate {
  import opened Chars
  import opened Search

  datatype Option<T> = None | Some(value: T)

  /** The errors the default validators report; a custom validator may report
      any message of its own. */
  datatype Error = EmptyName | BadLength | BadFormat | WeakOrCommon | Reported(message: string)

  /** What a validator returns: whether the name passed, and the error it gives. */
  datatype Verdict = Verdict(ok: bool, err: Option<Error>)

  /** A validator: one of the three built-in rules or a caller's own function. */
  datatype Rule = RangeRule | FormatRule | IntegrityRule | CustomRule(check: Bytes -> Verdict)

  const DotChar: byte := 46
  const MinLength := 5
  const MaxLength := 30

  /** validateRange: an empty name and a name outside 5..30 bytes are refused,
      each with its own error. */
  function ValidateRange(s: Bytes): (v: Verdict)
    ensures v.ok <==> MinLength <= |s| <= MaxLength
    ensures v.ok <==> v.err == None
    ensures s == [] ==> v.err == Some(EmptyName)
    ensures s != [] && !v.ok ==> v.err == Some(BadLength)
  {
    if s == [] then Verdict(false, Some(EmptyName))
    else if |s| < MinLength || |s| > MaxLength then Verdict(false, Some(BadLength))
    else Verdict(true, None)
  }

  /** The format the documentation of validateFormat describes: letters, digits
      and at most one dot, not at either end, and not digits alone. */
  predicate FormatOk(s: Bytes) {
    && |s| > 0 && s[0] != DotChar && s[|s| - 1] != DotChar
    && (forall i :: 0 <= i < |s| ==> IsLetter(s[i]) || IsDigit(s[i]) || s[i] == DotChar)
    && (forall i, j :: 0 <= i < j < |s| && s[i] == DotChar ==> s[j] != DotChar)
    && (exists i :: 0 <= i < |s| && IsLetter(s[i]))
  }

  /** The verdict validateFormat gives: the declarative format and its one error. */
  function FormatVerdict(s: Bytes): Verdict {
    if FormatOk(s) then Verdict(true, None) else Verdict(false, Some(BadFormat))
  }

  /** validateFormat: one pass that lets the first dot through, counts digits,
      fails on any other byte, and finally refuses a name made of digits (and
      the dot) alone. */
  method ValidateFormat(s: Bytes) returns (v: Verdict)
    ensures v == FormatVerdict(s)
  {
    if s == [] || s[0] == DotChar || s[|s| - 1] == DotChar {
      return Verdict(false, Some(BadFormat));
    }
    var countSpecial := 0;
    var countDigit := 0;
    ghost var dotAt := 0;
    for i := 0 to |s|
      invariant 0 <= countSpecial <= 1
      invariant countSpecial == 1 ==> 0 <= dotAt < i && s[dotAt] == DotChar
      invariant countSpecial == 0 ==> forall k :: 0 <= k < i ==> s[k] != DotChar
      invariant forall k :: 0 <= k < i ==> IsLetter(s[k]) || IsDigit(s[k]) || s[k] == DotChar
      invariant forall k, l :: 0 <= k < l < i && s[k] == DotChar ==> s[l] != DotChar
      invariant countDigit + countSpecial <= i
      invariant countDigit + countSpecial == i <==> forall k :: 0 <= k < i ==> !IsLetter(s[k])
    {
      var c := s[i];
      if c == DotChar && countSpecial < 1 {
        countSpecial := countSpecial + 1;
        dotAt := i;
        continue;
      }
      if !IsLetter(c) {
        if IsDigit(c) {
          countDigit := countDigit + 1;
        } else {
          return Verdict(false, Some(BadFormat));
        }
      }
    }
    if !(countDigit != |s| - countSpecial) {
      return Verdict(false, Some(BadFormat));
    }
    return Verdict(true, None);
  }

  /** strings.ToLower on one ASCII byte. */
  function LowerByte(c: byte): (r: byte)
    ensures IsLetter(c) <==> IsLetter(r)
    ensures !IsLetter(c) ==> r == c
    ensures IsLetter(c) ==> B('a') <= r <= B('z') && (r == c || r == c + 32)
  {
    if B('A') <= c <= B('Z') then c + 32 else c
  }

  /** strings.ToLower on ASCII text, byte by byte. */
  function ToLower(s: Bytes): (r: Bytes)
    ensures |r| == |s|
    ensures forall i :: 0 <= i < |r| ==> !(B('A') <= r[i] <= B('Z'))
    ensures forall i :: 0 <= i < |s| ==> r[i] == s[i] || (B('A') <= s[i] <= B('Z') && r[i] == s[i] + 32)
  {
    seq(|s|, i requires 0 <= i < |s| => LowerByte(s[i]))
  }

  /** Lowering twice is lowering once, and lowering keeps every non-letter. */
  lemma ToLowerIdempotent(s: Bytes)
    ensures ToLower(ToLower(s)) == ToLower(s)
    ensures forall i :: 0 <= i < |s| && !IsLetter(s[i]) ==> ToLower(s)[i] == s[i]
  {
  }

  /** The integrity check against any sorted list: the lowered name is looked
      up with sort.SearchStrings and refused when it is there. */
  function CheckIntegrity(bl: seq<Bytes>, s: Bytes): (v: Verdict)
    requires Sorted(bl)
    ensures v.ok <==> ToLower(s) !in bl
    ensures v.ok <==> v.err == None
    ensures !v.ok ==> v.err == Some(WeakOrCommon)
  {
    var t := ToLower(s);
    var index := SearchStrings(bl, t);
    SearchFindsMembers(bl, t);
    if index < |bl| && bl[index] == t then Verdict(false, Some(WeakOrCommon))
    else Verdict(true, None)
  }

  /** A stand-in for the built-in blacklist, holding the entries the unit tests
      name; the real list is not part of this model. */
  const Blacklist: seq<Bytes> := [Ascii("abcde"), Ascii("delete"), Ascii("root")]

  /** The stand-in list is sorted, as sort.SearchStrings requires. */
  lemma BlacklistSorted()
    ensures Sorted(Blacklist)
  {
    assert Less(Ascii("abcde"), Ascii("delete"));
    assert Less(Ascii("delete"), Ascii("root"));
    LessTransitive(Ascii("abcde"), Ascii("delete"), Ascii("root"));
    forall i, j | 0 <= i < j < |Blacklist|
      ensures !Less(Blacklist[j], Blacklist[i])
    {
      if Less(Blacklist[j], Blacklist[i]) {
        LessTransitive(Blacklist[i], Blacklist[j], Blacklist[i]);
        LessIrreflexive(Blacklist[i]);
      }
    }
  }

  /** validateIntegrity: the name, in any case, must not be on the blacklist. */
  function ValidateIntegrity(s: Bytes): (v: Verdict)
    ensures v.ok <==> ToLower(s) !in Blacklist
    ensures !v.ok ==> v.err == Some(WeakOrCommon)
  {
    BlacklistSorted();
    CheckIntegrity(Blacklist, s)
  }

  /** What one validator returns on a name. */
  function RuleVerdict(rule: Rule, s: Bytes): Verdict {
    match rule
    case RangeRule => ValidateRange(s)
    case FormatRule => FormatVerdict(s)
    case IntegrityRule => ValidateIntegrity(s)
    case CustomRule(check) => check(s)
  }

  predicate Passes(rule: Rule, s: Bytes) {
    RuleVerdict(rule, s).ok
  }

  predicate AllPass(rules: seq<Rule>, s: Bytes) {
    forall i :: 0 <= i < |rules| ==> Passes(rules[i], s)
  }

  /** Calling one validator; the loop in Identity.Validate makes these calls. */
  method Run(rule: Rule, s: Bytes) returns (v: Verdict)
    ensures v == RuleVerdict(rule, s)
  {
    match rule {
      case RangeRule => v := ValidateRange(s);
      case FormatRule => v := ValidateFormat(s);
      case IntegrityRule => v := ValidateIntegrity(s);
      case CustomRule(check) => v := check(s);
    }
  }

  /** The position of the first validator that refuses s, or |rules| when all pass. */
  function FirstFailing(rules: seq<Rule>, s: Bytes): (i: nat)
    ensures i <= |rules|
    ensures forall j :: 0 <= j < i ==> Passes(rules[j], s)
    ensures i < |rules| ==> !Passes(rules[i], s)
    ensures i == |rules| <==> AllPass(rules, s)
  {
    if rules == [] then 0
    else if !Passes(rules[0], s) then 0
    else 1 + FirstFailing(rules[1..], s)
  }

  /** The error Validate returns: that of the first validator to refuse, or none. */
  function FirstError(rules: seq<Rule>, s: Bytes): Option<Error> {
    var i := FirstFailing(rules, s);
    if i < |rules| then RuleVerdict(rules[i], s).err else None
  }

  /** defaultValidator, in its order. */
  function DefaultValidator(): (rules: seq<Rule>)
    ensures |rules| == 3
  {
    [RangeRule, FormatRule, IntegrityRule]
  }

  /** A validator list that accepts a name reports no error; a reported error
      always comes from a validator that refused. */
  lemma ErrorOnlyOnFailure(rules: seq<Rule>, s: Bytes)
    ensures AllPass(rules, s) ==> FirstError(rules, s) == None
    ensures FirstError(rules, s) != None ==> exists i :: 0 <= i < |rules| && !Passes(rules[i], s)
  {
  }

  /** A validator that refuses without an error makes Validate report nothing,
      though the name was refused. */
  lemma SilentRefusal(s: Bytes)
    ensures var rules := [CustomRule(_ => Verdict(false, None)), RangeRule];
      !AllPass(rules, s) && FirstError(rules, s) == None
  {
    var rules := [CustomRule(_ => Verdict(false, None)), RangeRule];
    assert !Passes(rules[0], s);
  }

  /** With the default validators, no error is reported exactly when the name has
      5 to 30 bytes, the right format, and is not on the blacklist in any case. */
  lemma DefaultsAccept(s: Bytes)
    ensures FirstError(DefaultValidator(), s) == None
      <==> AllPass(DefaultValidator(), s)
    ensures AllPass(DefaultValidator(), s)
      <==> MinLength <= |s| <= MaxLength && FormatOk(s) && ToLower(s) !in Blacklist
  {
    var rules := DefaultValidator();
    assert Passes(rules[0], s) <==> MinLength <= |s| <= MaxLength;
    assert Passes(rules[1], s) <==> FormatOk(s);
    assert Passes(rules[2], s) <==> ToLower(s) !in Blacklist;
  }

  /** "sarah.adams" has the default format, is lower case and is not listed. */
  lemma SarahAdams()
    ensures FormatOk(Ascii("sarah.adams"))
    ensures ToLower(Ascii("sarah.adams")) == Ascii("sarah.adams")
    ensures Ascii("sarah.adams") !in Blacklist
  {
    var s := Ascii("sarah.adams");
    assert s == [115, 97, 114, 97, 104, 46, 97, 100, 97, 109, 115];
    assert IsLetter(s[0]);
  }

  /** "sarah.123" has the default format, is lower case and is not listed. */
  lemma Sarah123()
    ensures FormatOk(Ascii("sarah.123"))
    ensures ToLower(Ascii("sarah.123")) == Ascii("sarah.123")
    ensures Ascii("sarah.123") !in Blacklist
  {
    var s := Ascii("sarah.123");
    assert s == [115, 97, 114, 97, 104, 46, 49, 50, 51];
    assert IsLetter(s[0]);
  }

  /** "sarah.adams", a name the unit tests expect to be accepted, passes the
      default validators. */
  lemma AcceptedName()
    ensures FirstError(DefaultValidator(), Ascii("sarah.adams")) == None
  {
    SarahAdams();
    DefaultsAccept(Ascii("sarah.adams"));
  }

  /** "sarah.123", a name the unit tests expect to be accepted, passes the
      default validators. */
  lemma AcceptedNameWithDigits()
    ensures FirstError(DefaultValidator(), Ascii("sarah.123")) == None
  {
    Sarah123();
    DefaultsAccept(Ascii("sarah.123"));
  }

  /** A listed name passes the range and format rules and is refused as weak. */
  lemma ListedName()
    ensures FirstError(DefaultValidator(), Ascii("abcde")) == Some(WeakOrCommon)
  {
    var a := Ascii("abcde");
    assert a == [97, 98, 99, 100, 101];
    assert IsLetter(a[0]);
    assert FormatOk(a);
    assert ToLower(a) == a;
    assert !Passes(IntegrityRule, a);
  }

  /** The blacklist is consulted in lower case. */
  lemma ListedNameAnyCase()
    ensures FirstError(DefaultValidator(), Ascii("DeLeTe")) == Some(WeakOrCommon)
  {
    var d := Ascii("DeLeTe");
    assert d == [68, 101, 76, 101, 84, 101];
    assert IsLetter(d[0]);
    assert FormatOk(d);
    assert ToLower(d) == Ascii("delete");
    assert !Passes(IntegrityRule, d);
  }

  /** "root" is refused by the range rule before the blacklist is consulted. */
  lemma ShortListedName()
    ensures FirstError(DefaultValidator(), Ascii("root")) == Some(BadLength)
  {
  }

  /** Names the unit tests expect the format rule to refuse for a dot at an
      end, or for two dots. */
  lemma MisplacedDotNames()
    ensures !FormatOk(Ascii("sarah."))
    ensures !FormatOk(Ascii(".sarah"))
    ensures !FormatOk(Ascii(".sarah."))
    ensures !FormatOk(Ascii("sarah.adams."))
    ensures !FormatOk(Ascii("............"))
    ensures !FormatOk(Ascii("sarah..adams"))
    ensures !FormatOk([])
  {
    var d := Ascii("sarah..adams");
    assert d[5] == DotChar && d[6] == DotChar;
  }

  /** Names the unit tests expect the format rule to refuse for a foreign
      byte, or for holding no letter. */
  lemma BadContentNames()
    ensures !FormatOk(Ascii("123456"))
    ensures !FormatOk(Ascii("11111111"))
    ensures !FormatOk(Ascii("root@test.com"))
  {
    var n := Ascii("123456");
    assert n == [49, 50, 51, 52, 53, 54];
    assert forall i :: 0 <= i < |n| ==> !IsLetter(n[i]);
    var m := Ascii("11111111");
    assert forall i :: 0 <= i < |m| ==> m[i] == 49;
    var e := Ascii("root@test.com");
    assert !IsLetter(e[4]) && !IsDigit(e[4]) && e[4] != DotChar;
  }

  /** Names the unit tests expect the range rule to refuse. */
  lemma OutOfRangeNames()
    ensures !Passes(RangeRule, Ascii("sar"))
    ensures !Passes(RangeRule, Ascii("abc"))
    ensures !Passes(RangeRule, Ascii("x.1"))
    ensures !Passes(RangeRule, Ascii("sarah1sarah2sarah3adams4.adams5"))
    ensures RuleVerdict(RangeRule, []).err == Some(EmptyName)
  {
  }
}
