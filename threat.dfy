/** The `ThreatAnalyzer` of src/utils/threatAnalyzer.ts: a placeholder
    analysis, link extraction by regular expression, a suspicious-sender
    test and a weighted threat score. All of it is pure: the analyzer's
    only state is its configuration, which nothing reads yet. */
module Threat {
  import opened Wrappers
  import opened Text

  datatype RiskLevel = Low | Medium | High | Critical

  /** The analyzer's switches (`AnalysisConfig`). */
  datatype AnalysisConfig = AnalysisConfig(
    enablePhishingDetection: bool, enableMalwareScanning: bool, enableLinkAnalysis: bool,
    enableAttachmentScanning: bool, sensitivityLevel: string)

  /** The fields of `EmailData` an analysis reads. */
  datatype EmailData = EmailData(id: string, subject: string, sender: string, recipient: string, body: string)

  /** One element of the list `calculateThreatScore` is given. Its
      severity is whatever string the caller put there. */
  datatype ThreatItem = ThreatItem(threatType: string, severity: string, description: string)

  /** `ThreatAnalysis`; the time stamp is the caller's clock reading. */
  datatype ThreatAnalysis = ThreatAnalysis(
    id: string, emailId: string, riskLevel: RiskLevel, threats: seq<ThreatItem>, score: nat, timestamp: int)

  // ---------------------------------------------------------------------
  // calculateThreatScore

  /** `severityWeights[severity]`; any other name is taken to read as
      `undefined`, which holds except for the names of `Object.prototype`
      members such as `toString`. */
  function Weight(severity: string): (w: Option<nat>)
    ensures w.Some? <==> severity in {"low", "medium", "high", "critical"}
    ensures w.Some? ==> 1 <= w.value <= 10
  {
    if severity == "low" then Some(1)
    else if severity == "medium" then Some(3)
    else if severity == "high" then Some(7)
    else if severity == "critical" then Some(10)
    else None
  }

  /** `score + weight`, where adding `undefined` gives `NaN` (`None`) and
      `NaN` stays `NaN`. */
  function AddWeight(score: Option<nat>, w: Option<nat>): Option<nat> {
    if score.Some? && w.Some? then Some(score.value + w.value) else None
  }

  /** `threats.reduce(..., 0)`: the left fold over the list. */
  function CalculateThreatScore(threats: seq<ThreatItem>): (score: Option<nat>)
    ensures threats == [] ==> score == Some(0)
  {
    if threats == [] then Some(0)
    else AddWeight(CalculateThreatScore(threats[..|threats| - 1]), Weight(threats[|threats| - 1].severity))
  }

  /** Every severity is in the table. */
  predicate Known(threats: seq<ThreatItem>) {
    forall i :: 0 <= i < |threats| ==> Weight(threats[i].severity).Some?
  }

  /** The sum of the weights, taken from the front. */
  function WeightSum(threats: seq<ThreatItem>): nat
    requires Known(threats)
  {
    if threats == [] then 0 else Weight(threats[0].severity).value + WeightSum(threats[1..])
  }

  lemma {:induction false} WeightSumAppend(threats: seq<ThreatItem>, t: ThreatItem)
    requires Known(threats + [t])
    ensures Known(threats) && Weight(t.severity).Some?
    ensures WeightSum(threats + [t]) == WeightSum(threats) + Weight(t.severity).value
  {
    assert forall i :: 0 <= i < |threats| ==> threats[i] == (threats + [t])[i];
    assert (threats + [t])[|threats|] == t;
    if threats != [] {
      assert (threats + [t])[1..] == threats[1..] + [t];
      WeightSumAppend(threats[1..], t);
    }
  }

  /** The score is the sum of the weights low=1, medium=3, high=7,
      critical=10 when every severity is one of those, and `NaN` as soon
      as one is not. */
  lemma {:induction false} ScoreIsWeightSum(threats: seq<ThreatItem>)
    ensures CalculateThreatScore(threats).Some? <==> Known(threats)
    ensures Known(threats) ==> CalculateThreatScore(threats) == Some(WeightSum(threats))
  {
    if threats != [] {
      var init, last := threats[..|threats| - 1], threats[|threats| - 1];
      assert threats == init + [last];
      ScoreIsWeightSum(init);
      assert forall i :: 0 <= i < |init| ==> init[i] == threats[i];
      if Known(threats) {
        WeightSumAppend(init, last);
      }
    }
  }

  /** Each threat adds between 1 and 10. */
  lemma {:induction false} WeightSumBounds(threats: seq<ThreatItem>)
    requires Known(threats)
    ensures |threats| <= WeightSum(threats) <= 10 * |threats|
  {
    if threats != [] {
      assert forall i :: 0 <= i < |threats[1..]| ==> threats[1..][i] == threats[i + 1];
      WeightSumBounds(threats[1..]);
    }
  }

  // ---------------------------------------------------------------------
  // isSuspiciousSender

  const SUSPICIOUS_DOMAINS: seq<string> := ["suspicious.com", "malware.net"]

  /** The text after the first `@` up to the next `@` or the end. */
  function DomainPart(email: string): (d: Option<string>)
    ensures d.Some? <==> '@' in email
    ensures d.Some? ==> '@' !in d.value
  {
    if '@' !in email then None
    else
      var rest := email[IndexOf(email, '@') + 1..];
      Some(rest[..IndexOf(rest, '@')])
  }

  /** The first piece of a split runs up to the first separator. */
  lemma FirstPiece(s: string)
    ensures Split(s, '@')[0] == s[..IndexOf(s, '@')]
  {
  }

  /** A split on `@` has a second piece exactly when there is an `@`, and
      that piece is the domain part. */
  lemma SecondPiece(email: string)
    ensures |Split(email, '@')| > 1 <==> '@' in email
    ensures '@' in email ==> Split(email, '@')[1] == DomainPart(email).value
  {
    var k := IndexOf(email, '@');
    if k < |email| {
      var rest := email[k + 1..];
      assert Split(email, '@') == [email[..k]] + Split(rest, '@');
      FirstPiece(rest);
    }
  }

  /** `suspiciousDomains.includes(email.split('@')[1])`: with no `@` the
      second piece is `undefined`, which is not in the list. A sender is
      suspicious exactly when its address has an `@` and the text between
      the first and the second `@` is a listed domain. */
  function IsSuspiciousSender(email: string): (r: bool)
    ensures r <==> DomainPart(email).Some? && DomainPart(email).value in SUSPICIOUS_DOMAINS
  {
    SecondPiece(email);
    var parts := Split(email, '@');
    |parts| > 1 && parts[1] in SUSPICIOUS_DOMAINS
  }

  // ---------------------------------------------------------------------
  // extractLinks: /https?:\/\/[^\s<>"']+/gi

  /** A character the class `[^\s<>"']` matches. */
  predicate IsLinkChar(c: char) {
    !IsSpace(c) && c != '<' && c != '>' && c != '"' && c != '\''
  }

  /** Under the `i` flag a pattern letter matches either case. */
  predicate MatchesFolded(s: string, i: nat, word: string) {
    i + |word| <= |s| && forall j :: 0 <= j < |word| ==> LowerChar(s[i + j]) == word[j]
  }

  /** The length of `https?://` at `i`, if it is there. */
  function SchemeAt(s: string, i: nat): (k: Option<nat>)
    ensures k.Some? ==> (k.value == 7 || k.value == 8) && i + k.value <= |s|
  {
    if MatchesFolded(s, i, "https://") then Some(8)
    else if MatchesFolded(s, i, "http://") then Some(7)
    else None
  }

  /** The number of link characters from `j` on (the greedy `+`). */
  function RunLength(s: string, j: nat): (n: nat)
    requires j <= |s|
    ensures j + n <= |s|
    ensures forall m :: j <= m < j + n ==> IsLinkChar(s[m])
    ensures j + n < |s| ==> !IsLinkChar(s[j + n])
    decreases |s| - j
  {
    if j == |s| || !IsLinkChar(s[j]) then 0 else 1 + RunLength(s, j + 1)
  }

  /** Where a match starting at `i` ends, if one starts there. */
  function MatchAt(s: string, i: nat): (e: Option<nat>)
    requires i <= |s|
    ensures e.Some? ==> i < e.value <= |s|
  {
    var k := SchemeAt(s, i);
    if k.None? then None
    else
      var n := RunLength(s, i + k.value);
      if n == 0 then None else Some(i + k.value + n)
  }

  /** A link as the pattern describes it. */
  predicate IsLink(l: string) {
    SchemeAt(l, 0).Some? && |l| > SchemeAt(l, 0).value
    && forall m :: SchemeAt(l, 0).value <= m < |l| ==> IsLinkChar(l[m])
  }

  /** The matches of the global search from `i` on, left to right. */
  function LinksFrom(s: string, i: nat): (links: seq<string>)
    requires i <= |s|
    decreases |s| - i
  {
    if i == |s| then []
    else
      var e := MatchAt(s, i);
      if e.Some? then [s[i..e.value]] + LinksFrom(s, e.value) else LinksFrom(s, i + 1)
  }

  /** `content.match(linkRegex) || []`: every link found has the link shape
      and occurs in the content, and nothing is found exactly when no
      position starts a match. */
  function ExtractLinks(content: string): (links: seq<string>)
    ensures forall l :: l in links ==> IsLink(l) && exists j: nat :: OccursAt(content, l, j)
    ensures links == [] <==> forall j :: 0 <= j <= |content| ==> MatchAt(content, j).None?
  {
    LinksAreLinks(content, 0);
    NoLinksIff(content, 0);
    LinksFrom(content, 0)
  }

  /** A match is a link. */
  lemma MatchIsLink(s: string, i: nat)
    requires i <= |s| && MatchAt(s, i).Some?
    ensures IsLink(s[i..MatchAt(s, i).value])
  {
    var l := s[i..MatchAt(s, i).value];
    var k := SchemeAt(s, i).value;
    if k == 8 {
      assert MatchesFolded(l, 0, "https://");
    } else {
      assert MatchesFolded(l, 0, "http://");
      assert !MatchesFolded(l, 0, "https://") by {
        assert !MatchesFolded(s, i, "https://");
        if |l| >= 8 {
          assert forall j :: 0 <= j < 8 ==> l[j] == s[i + j];
        }
      }
    }
  }

  /** Everything found is a link, and each one appears in the content. */
  lemma {:induction false} LinksAreLinks(s: string, i: nat)
    requires i <= |s|
    ensures forall l :: l in LinksFrom(s, i) ==> IsLink(l) && exists j: nat :: OccursAt(s, l, j)
    decreases |s| - i
  {
    if i < |s| {
      var e := MatchAt(s, i);
      if e.Some? {
        LinksAreLinks(s, e.value);
        MatchIsLink(s, i);
        assert OccursAt(s, s[i..e.value], i);
      } else {
        LinksAreLinks(s, i + 1);
      }
    }
  }

  /** A position that starts a match makes the search from before it find something. */
  lemma {:induction false} MatchFindsLink(s: string, i: nat, j: nat)
    requires i <= j <= |s| && MatchAt(s, j).Some?
    ensures LinksFrom(s, i) != []
    decreases j - i
  {
    LinksStep(s, i);
    if MatchAt(s, i).None? {
      MatchFindsLink(s, i + 1, j);
    }
  }

  /** One step of the search: a miss moves on by one, a match is kept. */
  lemma LinksStep(s: string, i: nat)
    requires i < |s|
    ensures MatchAt(s, i).None? ==> LinksFrom(s, i) == LinksFrom(s, i + 1)
    ensures MatchAt(s, i).Some? ==> LinksFrom(s, i) != []
  {
  }

  /** With no match from `i` on, the search from `i` finds nothing. */
  lemma {:induction false} NoMatchNoLink(s: string, i: nat)
    requires i <= |s|
    requires forall j :: i <= j <= |s| ==> MatchAt(s, j).None?
    ensures LinksFrom(s, i) == []
    decreases |s| - i
  {
    if i < |s| {
      assert MatchAt(s, i).None?;
      NoMatchNoLink(s, i + 1);
    }
  }

  /** The search finds nothing exactly when no position starts a match. */
  lemma NoLinksIff(s: string, i: nat)
    requires i <= |s|
    ensures LinksFrom(s, i) == [] <==> forall j :: i <= j <= |s| ==> MatchAt(s, j).None?
  {
    if forall j :: i <= j <= |s| ==> MatchAt(s, j).None? {
      NoMatchNoLink(s, i);
    } else {
      var j :| i <= j <= |s| && MatchAt(s, j).Some?;
      MatchFindsLink(s, i, j);
    }
  }

  /** A character that folds to a non-letter is that character. */
  lemma FoldedPunctuation(c: char, x: char)
    requires LowerChar(c) == x && !('a' <= x <= 'z')
    ensures c == x
  {
  }

  /** The three characters of a folded word from `m` on that read `://`. */
  lemma SeparatorAt(s: string, j: nat, w: string, m: nat)
    requires MatchesFolded(s, j, w) && m + 3 <= |w| && w[m..m + 3] == "://"
    ensures OccursAt(s, "://", j + m)
  {
    assert LowerChar(s[j + m]) == w[m];
    assert LowerChar(s[j + m + 1]) == w[m + 1];
    assert LowerChar(s[j + m + 2]) == w[m + 2];
    FoldedPunctuation(s[j + m], ':');
    FoldedPunctuation(s[j + m + 1], '/');
    FoldedPunctuation(s[j + m + 2], '/');
    assert s[j + m..j + m + 3] == "://";
  }

  /** A scheme ends in `://`. */
  lemma SchemeSeparator(s: string, j: nat)
    requires SchemeAt(s, j).Some?
    ensures OccursAt(s, "://", j + SchemeAt(s, j).value - 3)
  {
    if SchemeAt(s, j).value == 8 {
      assert "https://"[5..8] == "://";
      SeparatorAt(s, j, "https://", 5);
    } else {
      assert "http://"[4..7] == "://";
      SeparatorAt(s, j, "http://", 4);
    }
  }

  /** Content in which `://` never occurs has no links. */
  lemma NoSchemeNoLinks(s: string)
    requires forall j: nat :: !OccursAt(s, "://", j)
    ensures ExtractLinks(s) == []
  {
    forall j | 0 <= j <= |s| ensures MatchAt(s, j).None? {
      if SchemeAt(s, j).Some? {
        SchemeSeparator(s, j);
        assert false;
      }
    }
    NoLinksIff(s, 0);
  }

  // ---------------------------------------------------------------------
  // analyzeEmail

  /** `analyzeEmail`, a placeholder: the identifier and time come from the
      caller, and the switches change nothing. */
  function AnalyzeEmail(config: AnalysisConfig, email: EmailData, uuid: string, now: int): (a: ThreatAnalysis)
    ensures a.id == uuid && a.emailId == email.id && a.timestamp == now
    ensures a.riskLevel == Low && a.threats == []
    ensures CalculateThreatScore(a.threats) == Some(a.score)
  {
    ThreatAnalysis(uuid, email.id, Low, [], 0, now)
  }
}
