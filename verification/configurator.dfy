/** The pure rules inside the experiment configurator: System Usability
    Scale scoring, safe lookups in a loaded profile, file and metric name
    sanitisation, and the participant identifiers. */
module Configurator {
  import opened Wrappers
  import opened Values
  import Strings

  // ---------------------------------------------------------------------
  // System Usability Scale
  // ---------------------------------------------------------------------

  /** The points of the answer to the question at zero-based position `i`:
      odd-numbered questions (1, 3, ...) score `answer - 1`, even-numbered
      ones score `5 - answer`. */
  function Points(i: nat, answer: int): int {
    if (i + 1) % 2 != 0 then answer - 1 else 5 - answer
  }

  /** The reference sum: the points of the last answer added to the sum of
      the ones before it. */
  function SusSum(answers: seq<int>): int {
    if answers == [] then 0
    else SusSum(answers[..|answers| - 1]) + Points(|answers| - 1, answers[|answers| - 1])
  }

  /** The SUS score of a questionnaire. */
  function SusScore(answers: seq<int>): real {
    SusSum(answers) as real * 2.5
  }

  /** The scoring loop of the questionnaire form. */
  method ComputeSus(answers: seq<int>) returns (score: real)
    ensures score == SusScore(answers)
  {
    var sum := 0;
    var i := 0;
    while i < |answers|
      invariant 0 <= i <= |answers|
      invariant sum == SusSum(answers[..i])
    {
      assert answers[..i + 1][..i] == answers[..i];
      sum := sum + Points(i, answers[i]);
      i := i + 1;
    }
    assert answers[..|answers|] == answers;
    score := sum as real * 2.5;
  }

  /** Every answer on the five-point scale the form offers. */
  predicate OnScale(answers: seq<int>) {
    forall i :: 0 <= i < |answers| ==> 1 <= answers[i] <= 5
  }

  lemma {:induction false} SusSumBounds(answers: seq<int>)
    requires OnScale(answers)
    ensures 0 <= SusSum(answers) <= 4 * |answers|
  {
    if answers != [] {
      SusSumBounds(answers[..|answers| - 1]);
    }
  }

  /** Ten answers on the scale give a score between 0 and 100. */
  lemma SusScoreBounds(answers: seq<int>)
    requires |answers| == 10 && OnScale(answers)
    ensures 0.0 <= SusScore(answers) <= 100.0
  {
    SusSumBounds(answers);
  }

  lemma {:induction false} NeutralSum(answers: seq<int>)
    requires forall i :: 0 <= i < |answers| ==> answers[i] == 3
    ensures SusSum(answers) == 2 * |answers|
  {
    if answers != [] {
      NeutralSum(answers[..|answers| - 1]);
    }
  }

  /** Ten neutral answers, the form's preselected value, score exactly 50. */
  lemma NeutralScoresFifty(answers: seq<int>)
    requires |answers| == 10 && forall i :: 0 <= i < |answers| ==> answers[i] == 3
    ensures SusScore(answers) == 50.0
  {
    NeutralSum(answers);
  }

  /** Full agreement with the positive (odd) statements and full
      disagreement with the negative (even) ones. */
  predicate Best(answers: seq<int>) {
    forall i :: 0 <= i < |answers| ==> answers[i] == (if i % 2 == 0 then 5 else 1)
  }

  lemma {:induction false} BestSum(answers: seq<int>)
    requires Best(answers)
    ensures SusSum(answers) == 4 * |answers|
  {
    if answers != [] {
      BestSum(answers[..|answers| - 1]);
    }
  }

  /** The best possible answers reach the top of the scale. */
  lemma BestScoresHundred(answers: seq<int>)
    requires |answers| == 10 && Best(answers)
    ensures SusScore(answers) == 100.0
  {
    BestSum(answers);
  }

  // ---------------------------------------------------------------------
  // Safe lookup in a profile
  // ---------------------------------------------------------------------

  /** `get_val(path, default)`: follow `path` key by key while the current
      value is a dict holding the next key; fall back to `default` at the
      first step that cannot be taken. */
  function GetVal(data: Value, path: seq<string>, default: Value): (r: Value)
    ensures path == [] ==> r == data
    ensures path != [] && !data.Dict? ==> r == default
  {
    if path == [] then data
    else if data.Dict? && HasKey(data.entries, path[0]) then GetVal(Lookup(data.entries, path[0]).value, path[1..], default)
    else default
  }

  /** Every step of `path` can be taken from `data`. */
  predicate Resolves(data: Value, path: seq<string>) {
    path == [] || (data.Dict? && HasKey(data.entries, path[0]) && Resolves(Lookup(data.entries, path[0]).value, path[1..]))
  }

  /** A path that cannot be followed gives the default, and one that can
      gives a value that does not depend on the default. */
  lemma {:induction false} GetValDefault(data: Value, path: seq<string>, d1: Value, d2: Value)
    ensures !Resolves(data, path) ==> GetVal(data, path, d1) == d1
    ensures Resolves(data, path) ==> GetVal(data, path, d1) == GetVal(data, path, d2)
  {
    if path != [] && data.Dict? && HasKey(data.entries, path[0]) {
      GetValDefault(Lookup(data.entries, path[0]).value, path[1..], d1, d2);
    }
  }

  /** Looking up `p + q` is looking up `p` and then `q` from where it leads. */
  lemma {:induction false} GetValCompose(data: Value, p: seq<string>, q: seq<string>, d: Value)
    ensures GetVal(data, p + q, d) == if Resolves(data, p) then GetVal(GetVal(data, p, d), q, d) else d
  {
    if p == [] {
      assert p + q == q;
    } else {
      assert (p + q)[0] == p[0] && (p + q)[1..] == p[1..] + q;
      if data.Dict? && HasKey(data.entries, p[0]) {
        GetValCompose(Lookup(data.entries, p[0]).value, p[1..], q, d);
      }
    }
  }

  // ---------------------------------------------------------------------
  // Names
  // ---------------------------------------------------------------------

  const JsonSuffix := ".json"

  predicate NoSpace(s: string) {
    forall i :: 0 <= i < |s| ==> s[i] != ' '
  }

  /** Spaces become `_` and the name is lower-cased. */
  function Sanitize(s: string): (r: string)
    ensures |r| == |s| && NoSpace(r) && Strings.IsLower(r)
  {
    Strings.Lower(Strings.Replace(s, ' ', '_'))
  }

  lemma SanitizeOfSanitized(s: string)
    requires NoSpace(s) && Strings.IsLower(s)
    ensures Sanitize(s) == s
  {
    assert Strings.Replace(s, ' ', '_') == s;
    Strings.LowerOfLower(s);
  }

  /** The file name a profile is saved under. */
  function SafeProfileName(name: string): (r: string)
    ensures Strings.EndsWith(r, JsonSuffix) && NoSpace(r) && Strings.IsLower(r)
    ensures r == Sanitize(name) || r == Sanitize(name) + JsonSuffix
    ensures Strings.EndsWith(Sanitize(name), JsonSuffix) <==> r == Sanitize(name)
  {
    var s := Sanitize(name);
    if Strings.EndsWith(s, JsonSuffix) then s
    else
      WithSuffix(s);
      s + JsonSuffix
  }

  /** Appending `.json` to a sanitised name keeps it sanitised. */
  lemma WithSuffix(s: string)
    requires NoSpace(s) && Strings.IsLower(s)
    ensures var r := s + JsonSuffix;
      Strings.EndsWith(r, JsonSuffix) && NoSpace(r) && Strings.IsLower(r) && r != s
  {
    var r := s + JsonSuffix;
    assert r[|s|..] == JsonSuffix;
    forall i | 0 <= i < |r| ensures r[i] != ' ' && !('A' <= r[i] <= 'Z') {
      if i < |s| {
        assert r[i] == s[i];
      } else {
        assert r[i] == JsonSuffix[i - |s|];
      }
    }
  }

  /** Saving under a name that is already safe keeps it. */
  lemma SafeProfileNameIdempotent(name: string)
    ensures SafeProfileName(SafeProfileName(name)) == SafeProfileName(name)
  {
    var r := SafeProfileName(name);
    SanitizeOfSanitized(r);
  }

  /** The key a custom metric is stored under. */
  function CustomMetricName(name: string): (r: string)
    ensures NoSpace(r) && Strings.IsLower(r)
    ensures |r| <= |name|
    ensures r == [] || (!Strings.IsSpace(r[0]) && !Strings.IsSpace(r[|r| - 1]))
  {
    var s := Strings.Strip(name);
    SanitizedChars(s);
    Strings.Replace(Strings.Lower(s), ' ', '_')
  }

  /** Lower-casing and then replacing spaces by `_` leaves no space and no
      capital, and turns no other character into whitespace. */
  lemma SanitizedChars(s: string)
    ensures var r := Strings.Replace(Strings.Lower(s), ' ', '_');
      && |r| == |s| && NoSpace(r) && Strings.IsLower(r)
      && forall i :: 0 <= i < |s| && !Strings.IsSpace(s[i]) ==> !Strings.IsSpace(r[i])
  {
    var l := Strings.Lower(s);
    var r := Strings.Replace(l, ' ', '_');
    forall i | 0 <= i < |s|
      ensures r[i] != ' ' && !('A' <= r[i] <= 'Z')
      ensures !Strings.IsSpace(s[i]) ==> !Strings.IsSpace(r[i])
    {
      assert l[i] == Strings.LowerChar(s[i]);
      assert r[i] == if l[i] == ' ' then '_' else l[i];
      if !Strings.IsSpace(s[i]) {
        KeepsNonSpace(s[i]);
      }
    }
  }

  /** Lower-casing and replacing spaces by `_` never create whitespace. */
  lemma KeepsNonSpace(c: char)
    requires !Strings.IsSpace(c)
    ensures !Strings.IsSpace(Strings.LowerChar(c))
    ensures !Strings.IsSpace(if Strings.LowerChar(c) == ' ' then '_' else Strings.LowerChar(c))
  {
  }

  /** A stored metric key is its own key. */
  lemma CustomMetricNameIdempotent(name: string)
    ensures CustomMetricName(CustomMetricName(name)) == CustomMetricName(name)
  {
    var r := CustomMetricName(name);
    Strings.StripOfStripped(r);
    Strings.LowerOfLower(r);
    assert Strings.Replace(r, ' ', '_') == r;
  }

  /** The add-metric button: a metric is added only when both the name and
      the target event are non-empty, under its sanitised key. */
  function AddedMetricName(name: string, target: string): (r: Option<string>)
    ensures r.Some? <==> name != [] && target != []
    ensures r.Some? ==> r.value == CustomMetricName(name)
  {
    if name != [] && target != [] then Some(CustomMetricName(name)) else None
  }

  /** A name made only of spaces passes the guard and is stored under the
      empty key. */
  lemma BlankNameAccepted(target: string)
    requires target != []
    ensures AddedMetricName(" ", target) == Some([])
  {
    assert Strings.IsSpace(" "[0]);
    assert Strings.StripLeft(" ") == [];
  }

  // ---------------------------------------------------------------------
  // Participants
  // ---------------------------------------------------------------------

  /** A manual participant name replaces the count and the order. */
  function ManualOverride(manual: string, count: int, order: seq<string>): (r: (int, seq<string>))
    ensures manual != [] ==> r.0 == 1 && r.1 == [manual] && |r.1| == r.0
    ensures manual == [] ==> r == (count, order)
  {
    if manual != [] then (1, [manual]) else (count, order)
  }

  /** The identifier of a new participant, `group_user`, created only when
      both parts are non-empty. */
  function ParticipantId(group: string, user: string): (r: Option<string>)
    ensures r.Some? <==> group != [] && user != []
    ensures r.Some? ==> |r.value| == |group| + 1 + |user|
  {
    if group != [] && user != [] then Some(group + "_" + user) else None
  }

  /** When the group holds no `_`, the identifier splits back at its first
      `_` into the group and the user. */
  lemma ParticipantIdParts(group: string, user: string)
    requires group != [] && user != []
    requires forall i :: 0 <= i < |group| ==> group[i] != '_'
    ensures var parts := Strings.Split(ParticipantId(group, user).value, '_');
      |parts| > 1 && parts[0] == group && Strings.Join(parts[1..], '_') == user
  {
    Strings.SplitAfterFirst(group, '_', user);
    assert group + "_" + user == group + ['_'] + user;
    Strings.JoinSplit(user, '_');
  }

  /** Under that condition distinct participants get distinct identifiers. */
  lemma ParticipantIdInjective(g1: string, u1: string, g2: string, u2: string)
    requires g1 != [] && u1 != [] && g2 != [] && u2 != []
    requires forall i :: 0 <= i < |g1| ==> g1[i] != '_'
    requires forall i :: 0 <= i < |g2| ==> g2[i] != '_'
    requires ParticipantId(g1, u1) == ParticipantId(g2, u2)
    ensures g1 == g2 && u1 == u2
  {
    ParticipantIdParts(g1, u1);
    ParticipantIdParts(g2, u2);
  }
}
