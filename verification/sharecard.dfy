/** The share message: a fixed chain of first-occurrence placeholder
    replacements applied to the user's template. */
module ShareCard {
  import opened Wrappers
  import opened Strings
  import opened Types
  import Persistence

  const NoTrainMessage := "Please select a train first."
  const ClockwiseText := "Clockwise (Shun)"
  const CounterClockwiseText := "Counter-clockwise (Ni)"
  const OnTimeText := "On Time"

  /** True when the replacement text holds no '$', so no substitution
      pattern can be expanded in it. */
  predicate NoDollar(s: string) {
    forall i :: 0 <= i < |s| ==> s[i] != '$'
  }

  /** Expansion of a replacement string for a match of a plain-string
      pattern, after the GetSubstitution operation of the ECMAScript
      language specification: "$$" is a dollar sign, "$&" the matched text,
      "$`" the text before the match and "$'" the text after it. A string
      pattern has no capture groups, so every other '$' stands for itself. */
  function Substitution(rep: string, matched: string, before: string, after: string): (r: string)
    decreases |rep|
  {
    if rep == [] then []
    else if rep[0] == '$' && |rep| >= 2 && rep[1] == '$' then "$" + Substitution(rep[2..], matched, before, after)
    else if rep[0] == '$' && |rep| >= 2 && rep[1] == '&' then matched + Substitution(rep[2..], matched, before, after)
    else if rep[0] == '$' && |rep| >= 2 && rep[1] == '`' then before + Substitution(rep[2..], matched, before, after)
    else if rep[0] == '$' && |rep| >= 2 && rep[1] == '\'' then after + Substitution(rep[2..], matched, before, after)
    else [rep[0]] + Substitution(rep[1..], matched, before, after)
  }

  /** A replacement without '$' is inserted verbatim. */
  lemma {:induction false} SubstitutionLiteral(rep: string, matched: string, before: string, after: string)
    requires NoDollar(rep)
    ensures Substitution(rep, matched, before, after) == rep
    decreases |rep|
  {
    if rep != [] {
      assert rep[0] != '$';
      SubstitutionLiteral(rep[1..], matched, before, after);
      assert rep == [rep[0]] + rep[1..];
    }
  }

  /** The first occurrence of pat in s, if any. */
  predicate IsFirstOccurrence(s: string, pat: string, i: nat) {
    OccursAt(s, pat, i) && forall j :: 0 <= j < i ==> !OccursAt(s, pat, j)
  }

  /** Two first occurrences are the same occurrence. */
  lemma FirstOccurrenceUnique(s: string, pat: string, i: nat, k: nat)
    requires IsFirstOccurrence(s, pat, i) && IsFirstOccurrence(s, pat, k)
    ensures i == k
  {
  }

  /** s with the occurrence of pat at i replaced by the expansion of rep. */
  function SpliceAt(s: string, pat: string, rep: string, i: nat): string
    requires OccursAt(s, pat, i)
  {
    s[..i] + Substitution(rep, pat, s[..i], s[i + |pat|..]) + s[i + |pat|..]
  }

  /** String.prototype.replace with a string pattern: only the first
      occurrence is replaced; without one the text is returned as it is. */
  function ReplaceFirst(s: string, pat: string, rep: string): (r: string)
    ensures (forall j :: !OccursAt(s, pat, j)) ==> r == s
    ensures forall i: nat :: IsFirstOccurrence(s, pat, i) ==> r == SpliceAt(s, pat, rep, i)
  {
    match IndexOf(s, pat)
    case None => s
    case Some(i) =>
      assert IsFirstOccurrence(s, pat, i);
      assert forall k: nat :: IsFirstOccurrence(s, pat, k) ==> SpliceAt(s, pat, rep, k) == SpliceAt(s, pat, rep, i) by {
        forall k: nat | IsFirstOccurrence(s, pat, k) ensures SpliceAt(s, pat, rep, k) == SpliceAt(s, pat, rep, i) {
          FirstOccurrenceUnique(s, pat, i, k);
        }
      }
      SpliceAt(s, pat, rep, i)
  }

  /** The "{direction}" wording: 0 is clockwise, every other value
      counter-clockwise. */
  function DirectionText(direction: int): (t: string)
    ensures direction == 0 <==> t == ClockwiseText
    ensures direction != 0 <==> t == CounterClockwiseText
  {
    if direction == 0 then ClockwiseText else CounterClockwiseText
  }

  /** The "{status}" wording: only a delayed train mentions its delay. */
  function StatusText(t: TrainInfo): (s: string)
    ensures t.status == Delayed ==> s == "Delayed " + IntToString(t.delay) + "m"
    ensures t.status != Delayed ==> s == OnTimeText
  {
    if t.status == Delayed then "Delayed " + IntToString(t.delay) + "m" else OnTimeText
  }

  /** A character of pat at offset m sits at offset m of every occurrence. */
  lemma OccursAtChar(s: string, pat: string, j: int, m: nat)
    requires OccursAt(s, pat, j) && m < |pat|
    ensures s[j + m] == pat[m]
  {
    assert s[j..j + |pat|][m] == s[j + m];
  }

  /** pat cannot occur in s when one of its characters never appears in s. */
  lemma AbsentChar(s: string, pat: string, m: nat)
    requires m < |pat| && pat[m] !in s
    ensures forall j :: !OccursAt(s, pat, j)
  {
    forall j ensures !OccursAt(s, pat, j) {
      if OccursAt(s, pat, j) {
        OccursAtChar(s, pat, j, m);
      }
    }
  }

  /** With a '$'-free replacement the first occurrence is swapped for it verbatim. */
  lemma ReplaceLiteral(s: string, pat: string, rep: string, i: nat)
    requires IsFirstOccurrence(s, pat, i) && NoDollar(rep)
    ensures ReplaceFirst(s, pat, rep) == s[..i] + rep + s[i + |pat|..]
  {
    SubstitutionLiteral(rep, pat, s[..i], s[i + |pat|..]);
  }

  /** The message derived on every render: no train gives a fixed prompt,
      otherwise the seven placeholders are replaced in a fixed order, each
      on the result of the previous step. */
  function Message(train: Option<TrainInfo>, originName: string, destName: string, template: string): (m: string)
    ensures train.None? ==> m == NoTrainMessage
  {
    match train
    case None => NoTrainMessage
    case Some(t) =>
      var s1 := ReplaceFirst(template, "{train_type}", t.trainType);
      var s2 := ReplaceFirst(s1, "{train_no}", t.trainNo);
      var s3 := ReplaceFirst(s2, "{direction}", DirectionText(t.direction));
      var s4 := ReplaceFirst(s3, "{origin}", originName);
      var s5 := ReplaceFirst(s4, "{dest}", destName);
      var s6 := ReplaceFirst(s5, "{time}", t.arrivalTime);
      ReplaceFirst(s6, "{status}", StatusText(t))
  }

  /** What the card shows: nothing without a train, otherwise the message. */
  function Preview(train: Option<TrainInfo>, originName: string, destName: string, template: string): (p: Option<string>)
    ensures train.None? <==> p.None?
    ensures train.Some? ==> p == Some(Message(train, originName, destName, template))
  {
    if train.None? then None else Some(Message(train, originName, destName, template))
  }

  /** The seven placeholders the message understands. */
  const Placeholders: seq<string> :=
    ["{train_type}", "{train_no}", "{direction}", "{origin}", "{dest}", "{time}", "{status}"]

  /** A text in which none of the seven placeholders occurs. */
  ghost predicate MentionsNoPlaceholder(s: string) {
    forall k, j :: 0 <= k < |Placeholders| ==> !OccursAt(s, Placeholders[k], j)
  }

  /** A template mentioning none of the seven placeholders is the message
      itself, whatever the train and the station names. */
  lemma NoPlaceholderTemplateUnchanged(t: TrainInfo, originName: string, destName: string, template: string)
    requires MentionsNoPlaceholder(template)
    ensures Message(Some(t), originName, destName, template) == template
  {
    assert forall j :: !OccursAt(template, Placeholders[0], j);
    assert forall j :: !OccursAt(template, Placeholders[1], j);
    assert forall j :: !OccursAt(template, Placeholders[2], j);
    assert forall j :: !OccursAt(template, Placeholders[3], j);
    assert forall j :: !OccursAt(template, Placeholders[4], j);
    assert forall j :: !OccursAt(template, Placeholders[5], j);
    assert forall j :: !OccursAt(template, Placeholders[6], j);
  }

  /** A clock reading such as "08:15": digits and colons only. */
  predicate IsClockText(s: string) {
    forall i :: 0 <= i < |s| ==> IsDigit(s[i]) || s[i] == ':'
  }

  /** A step whose placeholder has a character missing from the text changes nothing. */
  lemma ReplaceAbsent(s: string, pat: string, rep: string, m: nat)
    requires m < |pat| && pat[m] !in s
    ensures ReplaceFirst(s, pat, rep) == s
  {
    AbsentChar(s, pat, m);
  }

  /** A text that is exactly the placeholder becomes exactly its replacement. */
  lemma ReplaceWhole(pat: string, rep: string)
    requires NoDollar(rep)
    ensures ReplaceFirst(pat, pat, rep) == rep
  {
    assert pat[0..|pat|] == pat;
    assert IsFirstOccurrence(pat, pat, 0);
    ReplaceLiteral(pat, pat, rep, 0);
    assert pat[..0] + rep + pat[|pat|..] == rep;
  }

  /** "{status}" cannot occur in a text without the letter 's'. */
  lemma NoStatusWithoutS(u: string)
    requires 's' !in u
    ensures forall j :: !OccursAt(u, "{status}", j)
  {
    var pat := "{status}";
    assert pat[1] == 's';
    forall j ensures !OccursAt(u, pat, j) {
      if OccursAt(u, pat, j) {
        OccursAtChar(u, pat, j, 1);
      }
    }
  }

  /** A clock reading never mentions "{status}". */
  lemma NoStatusInClockText(u: string)
    requires IsClockText(u)
    ensures forall j :: !OccursAt(u, "{status}", j)
  {
    assert 's' !in u;
    NoStatusWithoutS(u);
  }

  /** Digits and colons hold no '$'. */
  lemma ClockTextHasNoDollar(s: string)
    requires IsClockText(s)
    ensures NoDollar(s)
  {
  }

  /** "{time}" is filled with the arrival time, never the departure time:
      in a template where none of the five earlier placeholders occurs, the
      first "{time}" becomes the arrival time, later ones stay as written,
      and only the "{status}" step is still to come. */
  lemma TimeIsArrivalTime(t: TrainInfo, originName: string, destName: string, template: string, i: nat)
    requires forall k, j :: 0 <= k < 5 ==> !OccursAt(template, Placeholders[k], j)
    requires IsFirstOccurrence(template, "{time}", i)
    requires NoDollar(t.arrivalTime)
    ensures Message(Some(t), originName, destName, template)
         == ReplaceFirst(template[..i] + t.arrivalTime + template[i + 6..], "{status}", StatusText(t))
  {
    assert forall j :: !OccursAt(template, Placeholders[0], j);
    assert forall j :: !OccursAt(template, Placeholders[1], j);
    assert forall j :: !OccursAt(template, Placeholders[2], j);
    assert forall j :: !OccursAt(template, Placeholders[3], j);
    assert forall j :: !OccursAt(template, Placeholders[4], j);
    ReplaceLiteral(template, "{time}", t.arrivalTime, i);
  }

  /** A concrete instance: of "{time} {time}" only the first is filled. */
  lemma TimeFilledOnce(t: TrainInfo, originName: string, destName: string)
    requires IsClockText(t.arrivalTime)
    ensures Message(Some(t), originName, destName, "{time} {time}") == t.arrivalTime + " {time}"
  {
    TwoTimesShape();
    TimeAtStart(t, originName, destName, "{time} {time}");
  }

  /** TimeIsArrivalTime for a template that starts with "{time}" and has no
      letter 's', so that the "{status}" step finds nothing to replace. */
  lemma TimeAtStart(t: TrainInfo, originName: string, destName: string, template: string)
    requires forall k, j :: 0 <= k < 5 ==> !OccursAt(template, Placeholders[k], j)
    requires IsFirstOccurrence(template, "{time}", 0)
    requires IsClockText(t.arrivalTime)
    requires 's' !in template
    ensures Message(Some(t), originName, destName, template) == t.arrivalTime + template[6..]
  {
    var rest := template[6..];
    assert 's' !in rest by {
      forall c | c in rest ensures c != 's' {
        var j :| 0 <= j < |rest| && rest[j] == c;
        assert template[6 + j] == c;
      }
    }
    assert 's' !in t.arrivalTime;
    ClockTextHasNoDollar(t.arrivalTime);
    TimeIsArrivalTime(t, originName, destName, template, 0);
    EmptyPrefix(template, t.arrivalTime, rest);
    StatusStepIdle(Message(Some(t), originName, destName, template), t.arrivalTime, rest, t);
  }

  /** When neither part holds the letter 's', the "{status}" step leaves
      their concatenation alone. */
  lemma StatusStepIdle(m: string, a: string, b: string, t: TrainInfo)
    requires m == ReplaceFirst(a + b, "{status}", StatusText(t))
    requires 's' !in a && 's' !in b
    ensures m == a + b
  {
    assert 's' !in a + b;
    ReplaceAbsent(a + b, "{status}", StatusText(t), 1);
  }

  lemma EmptyPrefix(s: string, a: string, b: string)
    ensures s[..0] + a + b == a + b
  {
    assert s[..0] == [];
  }

  /** The shape of the template "{time} {time}": only "{time}" placeholders,
      the first at position 0, and no letter 's'. */
  lemma TwoTimesShape()
    ensures forall k, j :: 0 <= k < 5 ==> !OccursAt("{time} {time}", Placeholders[k], j)
    ensures IsFirstOccurrence("{time} {time}", "{time}", 0)
    ensures 's' !in "{time} {time}"
    ensures "{time} {time}"[6..] == " {time}"
  {
    var s := "{time} {time}";
    AbsentChar(s, Placeholders[0], 2);
    AbsentChar(s, Placeholders[1], 2);
    AbsentChar(s, Placeholders[2], 1);
    AbsentChar(s, Placeholders[3], 1);
    AbsentChar(s, Placeholders[4], 1);
    assert s[0..6] == "{time}";
  }

  /** The chain is sequential: the steps after "{dest}" work on the text
      that already carries the destination name, so a placeholder inside
      that name is filled in as well. */
  lemma DestinationNameIsRescanned(t: TrainInfo, originName: string, destName: string, template: string, i: nat)
    requires forall k, j :: 0 <= k < 4 ==> !OccursAt(template, Placeholders[k], j)
    requires IsFirstOccurrence(template, "{dest}", i)
    requires NoDollar(destName)
    ensures var withDest := template[..i] + destName + template[i + 6..];
            Message(Some(t), originName, destName, template)
            == ReplaceFirst(ReplaceFirst(withDest, "{time}", t.arrivalTime), "{status}", StatusText(t))
  {
    assert forall j :: !OccursAt(template, Placeholders[0], j);
    assert forall j :: !OccursAt(template, Placeholders[1], j);
    assert forall j :: !OccursAt(template, Placeholders[2], j);
    assert forall j :: !OccursAt(template, Placeholders[3], j);
    ReplaceLiteral(template, "{dest}", destName, i);
  }

  /** A concrete instance: with the template "{dest}" and a destination
      named "{time}", the message is the arrival time. */
  lemma DestinationNamedTime(t: TrainInfo, originName: string)
    requires IsClockText(t.arrivalTime)
    ensures Message(Some(t), originName, "{time}", "{dest}") == t.arrivalTime
  {
    DestOnlyShape();
    DestinationNameIsRescanned(t, originName, "{time}", "{dest}", 0);
    LoneTimeBecomesArrival(t);
  }

  /** The last two steps turn the text "{time}" into the arrival time. */
  lemma LoneTimeBecomesArrival(t: TrainInfo)
    requires IsClockText(t.arrivalTime)
    ensures ReplaceFirst(ReplaceFirst("{time}", "{time}", t.arrivalTime), "{status}", StatusText(t)) == t.arrivalTime
  {
    ClockTextHasNoDollar(t.arrivalTime);
    ReplaceWhole("{time}", t.arrivalTime);
    NoStatusInClockText(t.arrivalTime);
  }

  /** The shape of the template "{dest}", with "{time}" as the inserted name. */
  lemma DestOnlyShape()
    ensures forall k, j :: 0 <= k < 4 ==> !OccursAt("{dest}", Placeholders[k], j)
    ensures IsFirstOccurrence("{dest}", "{dest}", 0)
    ensures NoDollar("{time}")
    ensures "{dest}"[..0] + "{time}" + "{dest}"[6..] == "{time}"
  {
    var s := "{dest}";
    AbsentChar(s, Placeholders[0], 2);
    AbsentChar(s, Placeholders[1], 2);
    AbsentChar(s, Placeholders[2], 2);
    AbsentChar(s, Placeholders[3], 1);
    assert s[0..6] == s;
  }

  /** A placeholder cannot occur in a text whose only '{' is its first
      character when the second characters differ. */
  lemma OnlyLeadingBrace(u: string, pat: string)
    requires |pat| >= 2 && pat[0] == '{'
    requires |u| >= 2 && u[1] != pat[1]
    requires forall i :: 1 <= i < |u| ==> u[i] != '{'
    ensures forall j :: !OccursAt(u, pat, j)
  {
    forall j ensures !OccursAt(u, pat, j) {
      if OccursAt(u, pat, j) {
        OccursAtChar(u, pat, j, 0);
        OccursAtChar(u, pat, j, 1);
      }
    }
  }

  /** The part of the default template before "{dest}". */
  const DefaultLead := "{adjusted_time}\U{00E5}\U{02C6}\U{00B0}"

  /** The shape of the default template: the lead, then "{dest}", with none
      of the first four placeholders anywhere. */
  lemma DefaultTemplateShape()
    ensures Persistence.DefaultTemplate == DefaultLead + "{dest}"
    ensures forall k, j :: 0 <= k < 4 ==> !OccursAt(Persistence.DefaultTemplate, Placeholders[k], j)
    ensures IsFirstOccurrence(Persistence.DefaultTemplate, "{dest}", |DefaultLead|)
    ensures Persistence.DefaultTemplate[..|DefaultLead|] == DefaultLead && Persistence.DefaultTemplate[|DefaultLead| + 6..] == []
  {
    var s := Persistence.DefaultTemplate;
    AbsentChar(s, Placeholders[0], 2);
    AbsentChar(s, Placeholders[1], 2);
    AbsentChar(s, Placeholders[2], 3);
    AbsentChar(s, Placeholders[3], 1);
    assert s[18..24] == "{dest}";
    OnlyLeadingBrace(DefaultLead, "{dest}");
  }

  /** With the default template, and a destination name without '{' or '$',
      the message is the lead text followed by the name: "{adjusted_time}"
      is not one of the seven placeholders and stays as written. */
  lemma DefaultTemplateMessage(t: TrainInfo, originName: string, destName: string)
    requires NoDollar(destName)
    requires forall i :: 0 <= i < |destName| ==> destName[i] != '{'
    ensures Message(Some(t), originName, destName, Persistence.DefaultTemplate) == DefaultLead + destName
  {
    DefaultTemplateShape();
    DestinationNameIsRescanned(t, originName, destName, Persistence.DefaultTemplate, |DefaultLead|);
    var u := DefaultLead + destName;
    assert Persistence.DefaultTemplate[..|DefaultLead|] + destName + Persistence.DefaultTemplate[|DefaultLead| + 6..] == u;
    LeadAndNameHoldNoPlaceholder(destName);
    ReplaceAbsentWhole(u, "{time}", t.arrivalTime);
    ReplaceAbsentWhole(u, "{status}", StatusText(t));
  }

  /** The lead text followed by a name without '{' mentions neither "{time}" nor "{status}". */
  lemma LeadAndNameHoldNoPlaceholder(destName: string)
    requires forall i :: 0 <= i < |destName| ==> destName[i] != '{'
    ensures forall j :: !OccursAt(DefaultLead + destName, "{time}", j)
    ensures forall j :: !OccursAt(DefaultLead + destName, "{status}", j)
  {
    var u := DefaultLead + destName;
    assert forall i :: 1 <= i < |u| ==> u[i] != '{' by {
      forall i | 1 <= i < |u| ensures u[i] != '{' {
        if i < |DefaultLead| {
          assert u[i] == DefaultLead[i];
        } else {
          assert u[i] == destName[i - |DefaultLead|];
        }
      }
    }
    OnlyLeadingBrace(u, "{time}");
    OnlyLeadingBrace(u, "{status}");
  }

  /** A step whose placeholder does not occur changes nothing. */
  lemma ReplaceAbsentWhole(s: string, pat: string, rep: string)
    requires forall j :: !OccursAt(s, pat, j)
    ensures ReplaceFirst(s, pat, rep) == s
  {
  }

  /** A '$' in a replacement is a pattern, not a literal: "$`" brings in
      the text before the match. */
  lemma PrefixPatternExpands()
    ensures ReplaceFirst("ab{train_no}", "{train_no}", "$`") == "abab"
  {
    var s := "ab{train_no}";
    assert s[2..12] == "{train_no}";
    assert IsFirstOccurrence(s, "{train_no}", 2) by {
      forall j | 0 <= j < 2 ensures !OccursAt(s, "{train_no}", j) {
        if OccursAt(s, "{train_no}", j) {
          OccursAtChar(s, "{train_no}", j, 0);
        }
      }
    }
    assert s[..2] == "ab" && s[12..] == [];
    assert Substitution("$`", "{train_no}", "ab", []) == "ab" + Substitution([], "{train_no}", "ab", []);
  }

  /** "$&" brings in the matched text and "$$" stands for one dollar sign. */
  lemma MatchAndDollarPatternsExpand()
    ensures ReplaceFirst("{train_no}", "{train_no}", "$&!") == "{train_no}!"
    ensures ReplaceFirst("{train_no}", "{train_no}", "$$5") == "$5"
  {
    var s := "{train_no}";
    assert s[0..|s|] == s;
    assert IsFirstOccurrence(s, s, 0);
    assert s[..0] == [] && s[|s|..] == [];
    assert Substitution("$&!", s, [], []) == s + Substitution("!", s, [], []);
    assert Substitution("$$5", s, [], []) == "$" + Substitution("5", s, [], []);
  }
}
