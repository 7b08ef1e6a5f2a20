/**
 * The field-precedence policy shared by `on_member_join`
 * (namechecker.py:73-120) and `check_profile_command`
 * (namechecker.py:271-339): the username is always checked, then exactly one
 * of nickname / global display name / "no customization" applies, then the
 * bio (inspection command only) is searched for prohibited words.
 */
module Evaluation {
  import opened Wrappers
  import opened Sequences
  import opened Policy
  import opened NameChecks

  /** The profile field an issue is about. */
  datatype Field = GlobalUsername | ServerNickname | GlobalDisplayName | ProfileCustomization | Bio

  /** One issue line of the source, kept as data instead of Markdown text. */
  datatype Finding =
    | RestrictedChars(field: Field, value: string, chars: seq<char>)
    | ProhibitedWords(field: Field, value: string, words: set<string>)
    | MissingCustomization(shownAs: string)
  {
    /** The field the issue line is labelled with. */
    function Label(): Field {
      match this
      case RestrictedChars(f, _, _) => f
      case ProhibitedWords(f, _, _) => f
      case MissingCustomization(_) => ProfileCustomization
    }
  }

  /** The names a member shows: `member.name`, `member.nick`, `member.global_name`. */
  datatype Profile = Profile(name: string, nick: Option<string>, globalName: Option<string>)

  /** Python truthiness of an optional string: present and non-empty. */
  predicate IsSet(s: Option<string>) {
    s.Some? && s.value != []
  }

  /** The three mutually exclusive cases of the nickname / display-name step. */
  datatype DisplayIdentity = HasNickname(nick: string) | HasDisplayNameOnly(globalName: string) | HasNeither

  function Classify(p: Profile): DisplayIdentity {
    if IsSet(p.nick) then HasNickname(p.nick.value)
    else if IsSet(p.globalName) then HasDisplayNameOnly(p.globalName.value)
    else HasNeither
  }

  // ---------------------------------------------------------------------
  // The findings, as functions of the inputs
  // ---------------------------------------------------------------------

  /** The character issue for one field, if any. */
  function CharFindings(field: Field, value: string, allowed: set<char>): seq<Finding> {
    if AllAllowed(value, allowed) then [] else [RestrictedChars(field, value, InvalidChars(value, allowed))]
  }

  /** The prohibited-word issue for one field, if any. */
  function WordFindings(field: Field, value: string, words: seq<string>): seq<Finding> {
    var m := MatchedWords(value, words);
    if m == {} then [] else [ProhibitedWords(field, value, m)]
  }

  /** Both checks on one name field, character issue first. */
  function NameFindings(field: Field, value: string, allowed: set<char>, words: seq<string>): seq<Finding> {
    CharFindings(field, value, allowed) + WordFindings(field, value, words)
  }

  /** The nickname / display-name step: exactly one of its three cases applies. */
  function DisplayFindings(p: Profile, words: seq<string>): seq<Finding> {
    match Classify(p)
    case HasNickname(n) => NameFindings(ServerNickname, n, NICK_OR_GLOBAL_NAME_ALLOWED, words)
    case HasNeither => [MissingCustomization(p.name)]
    case HasDisplayNameOnly(g) => NameFindings(GlobalDisplayName, g, NICK_OR_GLOBAL_NAME_ALLOWED, words)
  }

  /** The bio step: words only, and only for a fetched, non-empty bio. */
  function BioFindings(bio: Option<string>, words: seq<string>): seq<Finding> {
    if IsSet(bio) then WordFindings(Bio, bio.value, words) else []
  }

  /** Every issue the evaluation appends, in the order it appends them. */
  function ProfileFindings(p: Profile, bio: Option<string>, words: seq<string>): seq<Finding> {
    NameFindings(GlobalUsername, p.name, USERNAME_ALLOWED, words) + DisplayFindings(p, words) + BioFindings(bio, words)
  }

  // ---------------------------------------------------------------------
  // The evaluation as the source performs it
  // ---------------------------------------------------------------------

  /** Runs both checks on one name field and appends its issues. */
  method CheckField(field: Field, value: string, allowed: set<char>, words: seq<string>) returns (issues: seq<Finding>)
    ensures issues == NameFindings(field, value, allowed, words)
  {
    issues := [];
    var isCompliant, badChars := CheckNameCharacters(value, allowed);
    var hasProhibited, foundProhibited := CheckProhibitedWords(value, words);
    if !isCompliant {
      issues := issues + [RestrictedChars(field, value, badChars)];
    }
    if hasProhibited {
      issues := issues + [ProhibitedWords(field, value, foundProhibited)];
    }
  }

  /** The nickname / display-name step of the evaluation: exactly one of three cases runs. */
  method CheckDisplayIdentity(p: Profile, words: seq<string>) returns (issues: seq<Finding>)
    ensures issues == DisplayFindings(p, words)
  {
    if IsSet(p.nick) {
      issues := CheckField(ServerNickname, p.nick.value, NICK_OR_GLOBAL_NAME_ALLOWED, words);
    } else if !IsSet(p.globalName) {
      issues := [MissingCustomization(p.name)];
    } else {
      issues := CheckField(GlobalDisplayName, p.globalName.value, NICK_OR_GLOBAL_NAME_ALLOWED, words);
    }
  }

  /** The bio step of the inspection command: a set bio is searched for prohibited words. */
  method CheckBio(bio: Option<string>, words: seq<string>) returns (issues: seq<Finding>)
    ensures issues == BioFindings(bio, words)
  {
    issues := [];
    if IsSet(bio) {
      var hasProhibited, foundProhibited := CheckProhibitedWords(bio.value, words);
      if hasProhibited {
        issues := [ProhibitedWords(Bio, bio.value, foundProhibited)];
      }
    }
  }

  /**
   * The rule evaluation: issues are appended field by field, the alert flag
   * is raised with every append, and the reported reasons are the issues
   * with repeats removed (`dict.fromkeys`). Pass `None` as the bio for the
   * join handler, which has no bio step.
   */
  method EvaluateProfile(p: Profile, bio: Option<string>, words: seq<string>)
    returns (alertNeeded: bool, issues: seq<Finding>, uniqueIssues: seq<Finding>)
    ensures issues == ProfileFindings(p, bio, words)
    ensures alertNeeded <==> issues != []
    ensures uniqueIssues == Dedup(issues)
  {
    var usernameIssues := CheckField(GlobalUsername, p.name, USERNAME_ALLOWED, words);
    var displayIssues := CheckDisplayIdentity(p, words);
    var bioIssues := CheckBio(bio, words);
    issues := usernameIssues + displayIssues + bioIssues;
    alertNeeded := usernameIssues != [] || displayIssues != [] || bioIssues != [];
    uniqueIssues := if alertNeeded then Dedup(issues) else [];
  }

  /** Python truthiness of the stored alert channel id. */
  predicate AlertChannelSet(alertChannel: Option<nat>) {
    alertChannel.Some? && alertChannel.value != 0
  }

  /**
   * The join handler: nothing is sent unless an alert channel is configured
   * and usable; otherwise one alert is sent exactly when the evaluation
   * (without a bio) found issues, and it lists every issue once.
   */
  method OnMemberJoin(alertChannel: Option<nat>, channelUsable: bool, member: Profile, words: seq<string>)
    returns (alert: Option<seq<Finding>>)
    ensures alert.Some? <==> AlertChannelSet(alertChannel) && channelUsable && ProfileFindings(member, None, words) != []
    ensures alert.Some? ==> alert.value == ProfileFindings(member, None, words)
  {
    if !AlertChannelSet(alertChannel) || !channelUsable {
      return None;
    }
    var alertNeeded, issues, uniqueIssues := EvaluateProfile(member, None, words);
    if alertNeeded {
      FindingsDistinct(member, None, words);
      if uniqueIssues == [] {
        return None;
      }
      return Some(uniqueIssues);
    }
    return None;
  }

  // ---------------------------------------------------------------------
  // Properties of the policy
  // ---------------------------------------------------------------------

  /** The findings about one field, in order. */
  function FindingsFor(fs: seq<Finding>, field: Field): seq<Finding> {
    if fs == [] then []
    else (if fs[0].Label() == field then [fs[0]] else []) + FindingsFor(fs[1..], field)
  }

  /** The view for a field holds exactly the findings labelled with it. */
  lemma {:induction false} FindingsForMembers(fs: seq<Finding>, field: Field)
    ensures forall f :: f in FindingsFor(fs, field) <==> f in fs && f.Label() == field
  {
    if fs != [] {
      FindingsForMembers(fs[1..], field);
      assert fs == [fs[0]] + fs[1..];
    }
  }

  lemma {:induction false} FindingsForConcat(a: seq<Finding>, b: seq<Finding>, field: Field)
    ensures FindingsFor(a + b, field) == FindingsFor(a, field) + FindingsFor(b, field)
  {
    if a == [] {
      assert a + b == b;
    } else {
      assert (a + b)[0] == a[0];
      assert (a + b)[1..] == a[1..] + b;
      FindingsForConcat(a[1..], b, field);
    }
  }

  /** A run of findings that all carry one label is its own view for that label, and no other's. */
  lemma {:induction false} FindingsForUniform(fs: seq<Finding>, tag: Field)
    requires forall f :: f in fs ==> f.Label() == tag
    ensures FindingsFor(fs, tag) == fs
    ensures forall other: Field :: other != tag ==> FindingsFor(fs, other) == []
  {
    if fs != [] {
      FindingsForUniform(fs[1..], tag);
    }
    forall other: Field | other != tag
      ensures FindingsFor(fs, other) == []
    {
      FindingsForMembers(fs, other);
    }
  }

  lemma NameFindingsLabelled(field: Field, value: string, allowed: set<char>, words: seq<string>)
    ensures forall f :: f in NameFindings(field, value, allowed, words) ==> f.Label() == field
  {
  }

  /** The findings split at the three steps of the evaluation, viewed per field. */
  lemma FindingsForSteps(p: Profile, bio: Option<string>, words: seq<string>, field: Field)
    ensures FindingsFor(ProfileFindings(p, bio, words), field)
         == FindingsFor(NameFindings(GlobalUsername, p.name, USERNAME_ALLOWED, words), field)
          + FindingsFor(DisplayFindings(p, words), field)
          + FindingsFor(BioFindings(bio, words), field)
  {
    var u := NameFindings(GlobalUsername, p.name, USERNAME_ALLOWED, words);
    var d := DisplayFindings(p, words);
    FindingsForConcat(u + d, BioFindings(bio, words), field);
    FindingsForConcat(u, d, field);
  }

  // Which check runs on which field: each lemma below gives the findings
  // labelled with one field as a function of the inputs.

  /** The username is always checked, against the set without the space. */
  lemma UsernameAlwaysChecked(p: Profile, bio: Option<string>, words: seq<string>)
    ensures FindingsFor(ProfileFindings(p, bio, words), GlobalUsername)
         == NameFindings(GlobalUsername, p.name, USERNAME_ALLOWED, words)
  {
    UsernameStepView(p, words);
    DisplayStepView(p, words);
    BioStepView(bio, words);
    FindingsForSteps(p, bio, words, GlobalUsername);
  }

  /** A set nickname is checked against the set with the space; an unset one is not checked. */
  lemma NicknameCheckedWhenSet(p: Profile, bio: Option<string>, words: seq<string>)
    ensures FindingsFor(ProfileFindings(p, bio, words), ServerNickname)
         == if IsSet(p.nick) then NameFindings(ServerNickname, p.nick.value, NICK_OR_GLOBAL_NAME_ALLOWED, words) else []
  {
    UsernameStepView(p, words);
    DisplayStepView(p, words);
    BioStepView(bio, words);
    FindingsForSteps(p, bio, words, ServerNickname);
  }

  /** The global display name is checked, against the set with the space, only when no nickname is set. */
  lemma DisplayNameCheckedWithoutNickname(p: Profile, bio: Option<string>, words: seq<string>)
    ensures FindingsFor(ProfileFindings(p, bio, words), GlobalDisplayName)
         == if !IsSet(p.nick) && IsSet(p.globalName)
            then NameFindings(GlobalDisplayName, p.globalName.value, NICK_OR_GLOBAL_NAME_ALLOWED, words)
            else []
  {
    UsernameStepView(p, words);
    DisplayStepView(p, words);
    BioStepView(bio, words);
    FindingsForSteps(p, bio, words, GlobalDisplayName);
  }

  /** The "Profile Customization" issue arises, once, exactly when neither name is set. */
  lemma CustomizationIssueWhenNeitherSet(p: Profile, bio: Option<string>, words: seq<string>)
    ensures FindingsFor(ProfileFindings(p, bio, words), ProfileCustomization)
         == if !IsSet(p.nick) && !IsSet(p.globalName) then [MissingCustomization(p.name)] else []
  {
    UsernameStepView(p, words);
    DisplayStepView(p, words);
    BioStepView(bio, words);
    FindingsForSteps(p, bio, words, ProfileCustomization);
  }

  /** A set bio is searched for prohibited words only; an unset bio yields nothing. */
  lemma BioCheckedWhenSet(p: Profile, bio: Option<string>, words: seq<string>)
    ensures FindingsFor(ProfileFindings(p, bio, words), Bio)
         == if IsSet(bio) then WordFindings(Bio, bio.value, words) else []
  {
    UsernameStepView(p, words);
    DisplayStepView(p, words);
    BioStepView(bio, words);
    FindingsForSteps(p, bio, words, Bio);
  }

  lemma UsernameStepView(p: Profile, words: seq<string>)
    ensures forall field: Field ::
              FindingsFor(NameFindings(GlobalUsername, p.name, USERNAME_ALLOWED, words), field)
              == if field == GlobalUsername then NameFindings(GlobalUsername, p.name, USERNAME_ALLOWED, words) else []
  {
    NameFindingsLabelled(GlobalUsername, p.name, USERNAME_ALLOWED, words);
    FindingsForUniform(NameFindings(GlobalUsername, p.name, USERNAME_ALLOWED, words), GlobalUsername);
  }

  lemma DisplayStepView(p: Profile, words: seq<string>)
    ensures FindingsFor(DisplayFindings(p, words), GlobalUsername) == []
    ensures FindingsFor(DisplayFindings(p, words), Bio) == []
    ensures FindingsFor(DisplayFindings(p, words), ServerNickname)
         == if IsSet(p.nick) then NameFindings(ServerNickname, p.nick.value, NICK_OR_GLOBAL_NAME_ALLOWED, words) else []
    ensures FindingsFor(DisplayFindings(p, words), GlobalDisplayName)
         == if !IsSet(p.nick) && IsSet(p.globalName)
            then NameFindings(GlobalDisplayName, p.globalName.value, NICK_OR_GLOBAL_NAME_ALLOWED, words)
            else []
    ensures FindingsFor(DisplayFindings(p, words), ProfileCustomization)
         == if !IsSet(p.nick) && !IsSet(p.globalName) then [MissingCustomization(p.name)] else []
  {
    var d := DisplayFindings(p, words);
    match Classify(p) {
      case HasNickname(n) =>
        NameFindingsLabelled(ServerNickname, n, NICK_OR_GLOBAL_NAME_ALLOWED, words);
        FindingsForUniform(d, ServerNickname);
      case HasNeither =>
        FindingsForUniform(d, ProfileCustomization);
      case HasDisplayNameOnly(g) =>
        NameFindingsLabelled(GlobalDisplayName, g, NICK_OR_GLOBAL_NAME_ALLOWED, words);
        FindingsForUniform(d, GlobalDisplayName);
    }
  }

  lemma BioStepView(bio: Option<string>, words: seq<string>)
    ensures forall field: Field ::
              FindingsFor(BioFindings(bio, words), field) == if field == Bio then BioFindings(bio, words) else []
  {
    FindingsForUniform(BioFindings(bio, words), Bio);
  }

  /** With a nickname set, the global display name has no influence at all. */
  lemma NicknameTakesPrecedence(p: Profile, bio: Option<string>, words: seq<string>, otherGlobalName: Option<string>)
    requires IsSet(p.nick)
    ensures ProfileFindings(p.(globalName := otherGlobalName), bio, words) == ProfileFindings(p, bio, words)
    ensures forall f :: f in ProfileFindings(p, bio, words) ==> f.Label() != GlobalDisplayName
  {
    DisplayNameCheckedWithoutNickname(p, bio, words);
    FindingsForMembers(ProfileFindings(p, bio, words), GlobalDisplayName);
  }

  /** A finding occurs in a sequence as often as in its view for the finding's own field. */
  lemma {:induction false} CountInView(fs: seq<Finding>, f: Finding)
    ensures multiset(FindingsFor(fs, f.Label()))[f] == multiset(fs)[f]
  {
    if fs != [] {
      CountInView(fs[1..], f);
      assert fs == [fs[0]] + fs[1..];
    }
  }

  /** The "Profile Customization" issue appears once when neither name is set, and never otherwise. */
  lemma MissingCustomizationIffNeitherSet(p: Profile, bio: Option<string>, words: seq<string>)
    ensures MissingCustomization(p.name) in ProfileFindings(p, bio, words) <==> !IsSet(p.nick) && !IsSet(p.globalName)
    ensures multiset(ProfileFindings(p, bio, words))[MissingCustomization(p.name)]
         == if !IsSet(p.nick) && !IsSet(p.globalName) then 1 else 0
  {
    var fs := ProfileFindings(p, bio, words);
    CustomizationIssueWhenNeitherSet(p, bio, words);
    FindingsForMembers(fs, ProfileCustomization);
    CountInView(fs, MissingCustomization(p.name));
  }

  /** The bio yields at most one issue, a prohibited-word one, never a character issue. */
  lemma BioCheckedForWordsOnly(p: Profile, bio: Option<string>, words: seq<string>)
    ensures forall f :: f in ProfileFindings(p, bio, words) && f.Label() == Bio ==>
              f.ProhibitedWords? && IsSet(bio) && f.words == MatchedWords(bio.value, words) && f.words != {}
    ensures (exists f :: f in ProfileFindings(p, bio, words) && f.Label() == Bio) <==>
              IsSet(bio) && MatchedWords(bio.value, words) != {}
  {
    BioCheckedWhenSet(p, bio, words);
    var fs := ProfileFindings(p, bio, words);
    FindingsForMembers(fs, Bio);
    if IsSet(bio) && MatchedWords(bio.value, words) != {} {
      var f := ProhibitedWords(Bio, bio.value, MatchedWords(bio.value, words));
      assert f in FindingsFor(fs, Bio);
    }
  }

  /**
   * A name field is reported for characters iff one of its characters is
   * outside the set, with exactly the offending characters; and for words iff
   * some listed word was matched, with exactly the matched words.
   */
  lemma NameFindingsSpec(field: Field, value: string, allowed: set<char>, words: seq<string>)
    ensures (exists cs :: RestrictedChars(field, value, cs) in NameFindings(field, value, allowed, words))
        <==> !AllAllowed(value, allowed)
    ensures forall cs :: RestrictedChars(field, value, cs) in NameFindings(field, value, allowed, words) ==>
              cs == InvalidChars(value, allowed) && cs != []
    ensures (exists ws :: ProhibitedWords(field, value, ws) in NameFindings(field, value, allowed, words))
        <==> MatchedWords(value, words) != {}
    ensures forall ws :: ProhibitedWords(field, value, ws) in NameFindings(field, value, allowed, words) ==>
              ws == MatchedWords(value, words)
  {
    InvalidCharsSpec(value, allowed);
    if !AllAllowed(value, allowed) {
      assert RestrictedChars(field, value, InvalidChars(value, allowed)) in NameFindings(field, value, allowed, words);
    }
    if MatchedWords(value, words) != {} {
      assert ProhibitedWords(field, value, MatchedWords(value, words)) in NameFindings(field, value, allowed, words);
    }
  }

  lemma NoDupConcat<T>(a: seq<T>, b: seq<T>)
    requires NoDup(a) && NoDup(b)
    requires forall x :: x in a ==> x !in b
    ensures NoDup(a + b)
  {
    var s := a + b;
    forall i, j | 0 <= i < j < |s|
      ensures s[i] != s[j]
    {
      if i < |a| && j >= |a| {
        assert s[i] in a && s[j] in b;
      }
    }
  }

  /** A name field yields at most one issue of each kind. */
  lemma NameFindingsDistinct(field: Field, value: string, allowed: set<char>, words: seq<string>)
    ensures NoDup(NameFindings(field, value, allowed, words))
  {
  }

  /** The three steps report on different fields. */
  lemma StepLabels(p: Profile, bio: Option<string>, words: seq<string>)
    ensures forall f :: f in NameFindings(GlobalUsername, p.name, USERNAME_ALLOWED, words) ==> f.Label() == GlobalUsername
    ensures forall f :: f in DisplayFindings(p, words) ==> f.Label() != GlobalUsername && f.Label() != Bio
    ensures forall f :: f in BioFindings(bio, words) ==> f.Label() == Bio
  {
    NameFindingsLabelled(GlobalUsername, p.name, USERNAME_ALLOWED, words);
    match Classify(p) {
      case HasNickname(n) => NameFindingsLabelled(ServerNickname, n, NICK_OR_GLOBAL_NAME_ALLOWED, words);
      case HasNeither =>
      case HasDisplayNameOnly(g) => NameFindingsLabelled(GlobalDisplayName, g, NICK_OR_GLOBAL_NAME_ALLOWED, words);
    }
  }

  /** Each step on its own appends no issue twice. */
  lemma StepsDistinct(p: Profile, bio: Option<string>, words: seq<string>)
    ensures NoDup(NameFindings(GlobalUsername, p.name, USERNAME_ALLOWED, words))
    ensures NoDup(DisplayFindings(p, words))
    ensures NoDup(BioFindings(bio, words))
  {
    NameFindingsDistinct(GlobalUsername, p.name, USERNAME_ALLOWED, words);
    match Classify(p) {
      case HasNickname(n) => NameFindingsDistinct(ServerNickname, n, NICK_OR_GLOBAL_NAME_ALLOWED, words);
      case HasNeither =>
      case HasDisplayNameOnly(g) => NameFindingsDistinct(GlobalDisplayName, g, NICK_OR_GLOBAL_NAME_ALLOWED, words);
    }
  }

  /**
   * The evaluation never appends the same issue twice, so the
   * `dict.fromkeys` step of the source changes nothing.
   */
  lemma FindingsDistinct(p: Profile, bio: Option<string>, words: seq<string>)
    ensures NoDup(ProfileFindings(p, bio, words))
    ensures Dedup(ProfileFindings(p, bio, words)) == ProfileFindings(p, bio, words)
  {
    var u := NameFindings(GlobalUsername, p.name, USERNAME_ALLOWED, words);
    var d := DisplayFindings(p, words);
    var b := BioFindings(bio, words);
    assert NoDup(u + d + b) by {
      StepLabels(p, bio, words);
      StepsDistinct(p, bio, words);
      NoDupConcat(u, d);
      NoDupConcat(u + d, b);
    }
    FirstOccurrencesOfDistinct(ProfileFindings(p, bio, words), KeepAll());
  }
}
