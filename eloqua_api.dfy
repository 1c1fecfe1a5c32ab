/** The naming rules, URI handling, upload-record builders and credential
    string of the marketing-automation API client (utils/api/api.py). The
    naming convention (PSP prefixes, segment and campaign lists) and the
    source country are parameters instead of module globals. */
module EloquaApi {
  import opened Outcomes
  import opened Text
  import Paging

  // ---------------------------------------------------------------- status_code

  /** The colour the connection report is printed in. */
  datatype Colour = Green | Red | Blue

  function StatusColour(code: int): (c: Colour)
    ensures c == Green <==> 200 <= code < 400
    ensures c == Red <==> 400 <= code
    ensures c == Blue <==> code < 200
  {
    if 200 <= code && code < 400 then Green
    else if code >= 400 then Red
    else Blue
  }

  /** `status_code`: whether the API call counts as connected. */
  function Connected(code: int): (b: bool)
    ensures b <==> 200 <= code < 400
    ensures !b ==> StatusColour(code) != Green
  {
    StatusColour(code) == Green
  }

  // ---------------------------------------------------------------- eloqua_asset_html_name

  /** A `-`-part of the local name that the HTML name leaves out: it starts
      with one of the country's PSP prefixes, or it holds a date (two
      consecutive digits). */
  predicate Dropped(part: string, psp: seq<string>)
  {
    StartsWithAny(part, psp) || HasTwoDigits(part)
  }

  /** `part[:20]`. */
  function Truncate20(part: string): (r: string)
    ensures |r| <= 20 && |r| <= |part| && r == part[..|r|]
    ensures |part| <= 20 ==> r == part
  {
    if |part| <= 20 then part else part[..20]
  }

  /** What one `-`-part adds to the HTML name. */
  function Piece(part: string, psp: seq<string>): string
  {
    if Dropped(part, psp) then "" else Truncate20(part) + "-"
  }

  /** The HTML-name prefix built from the given parts, in order. */
  function KeptPrefix(parts: seq<string>, psp: seq<string>): string
  {
    if |parts| == 0 then "" else KeptPrefix(parts[..|parts| - 1], psp) + Piece(parts[|parts| - 1], psp)
  }

  /** The HTML name of an asset name, or `None` where indexing the
      second-to-last `_`-segment fails (a name without `_`). */
  function HtmlNameOf(name: string, psp: seq<string>): Option<string>
  {
    var segments := Split(name, '_');
    if |segments| < 2 then None
    else Some(KeptPrefix(Split(segments[|segments| - 2], '-'), psp) + segments[|segments| - 1])
  }

  /** `eloqua_asset_html_name`: the loop appending the kept parts. */
  method HtmlName(name: string, psp: seq<string>) returns (r: Option<string>)
    ensures r == HtmlNameOf(name, psp)
  {
    var segments := Split(name, '_');
    if |segments| < 2 {
      return None;
    }
    var htmlName := "";
    var parts := Split(segments[|segments| - 2], '-');
    var i := 0;
    while i < |parts|
      invariant 0 <= i <= |parts|
      invariant htmlName == KeptPrefix(parts[..i], psp)
    {
      var part := parts[i];
      assert parts[..i + 1][..i] == parts[..i];
      if StartsWithAny(part, psp) {
      } else if HasTwoDigits(part) {
      } else {
        htmlName := htmlName + Truncate20(part) + "-";
      }
      i := i + 1;
    }
    assert parts[..|parts|] == parts;
    htmlName := htmlName + segments[|segments| - 1];
    return Some(htmlName);
  }

  /** The prefix is built part by part: the parts of a concatenation
      contribute one after the other, so kept parts stay in order and a
      dropped part contributes nothing. */
  lemma {:induction false} KeptPrefixAppend(a: seq<string>, b: seq<string>, psp: seq<string>)
    ensures KeptPrefix(a + b, psp) == KeptPrefix(a, psp) + KeptPrefix(b, psp)
    decreases |b|
  {
    if |b| > 0 {
      var b0 := b[..|b| - 1];
      assert (a + b)[..|a + b| - 1] == a + b0;
      assert (a + b)[|a + b| - 1] == b[|b| - 1];
      KeptPrefixAppend(a, b0, psp);
    } else {
      assert a + b == a;
    }
  }

  lemma NoTwoDigitsConcat(a: string, b: string)
    requires !HasTwoDigits(a) && !HasTwoDigits(b)
    requires |a| == 0 || !IsDigitChar(a[|a| - 1]) || |b| == 0 || !IsDigitChar(b[0])
    ensures !HasTwoDigits(a + b)
  {
    var s := a + b;
    forall i | 0 <= i < |s| - 1
      ensures !(IsDigitChar(s[i]) && IsDigitChar(s[i + 1]))
    {
      if i + 1 < |a| {
        assert s[i] == a[i] && s[i + 1] == a[i + 1];
      } else if i >= |a| {
        assert s[i] == b[i - |a|] && s[i + 1] == b[i + 1 - |a|];
      } else {
        assert s[i] == a[|a| - 1] && s[i + 1] == b[0];
      }
    }
  }

  lemma TruncateNoTwoDigits(part: string)
    requires !HasTwoDigits(part)
    ensures !HasTwoDigits(Truncate20(part))
  {
    var t := Truncate20(part);
    forall i | 0 <= i < |t| - 1
      ensures !(IsDigitChar(t[i]) && IsDigitChar(t[i + 1]))
    {
      assert t[i] == part[i] && t[i + 1] == part[i + 1];
    }
  }

  /** The built prefix never holds a date: no two consecutive digits, even
      where two kept parts meet (a `-` always separates them). It is empty
      or ends with `-`. */
  lemma {:induction false} KeptPrefixHasNoDate(parts: seq<string>, psp: seq<string>)
    ensures !HasTwoDigits(KeptPrefix(parts, psp))
    ensures var k := KeptPrefix(parts, psp); |k| == 0 || k[|k| - 1] == '-'
    decreases |parts|
  {
    if |parts| > 0 {
      var init := parts[..|parts| - 1];
      var last := parts[|parts| - 1];
      KeptPrefixHasNoDate(init, psp);
      if !Dropped(last, psp) {
        TruncateNoTwoDigits(last);
        var t := Truncate20(last);
        NoTwoDigitsConcat(t, "-");
        NoTwoDigitsConcat(KeptPrefix(init, psp), t + "-");
        assert KeptPrefix(parts, psp) == KeptPrefix(init, psp) + (t + "-");
      } else {
        assert KeptPrefix(parts, psp) == KeptPrefix(init, psp);
      }
    }
  }

  /** When no part is dropped and none is longer than 20 characters, the
      prefix is the parts joined by `-`, with a trailing `-`. */
  lemma {:induction false} KeptPrefixAllKept(parts: seq<string>, psp: seq<string>)
    requires |parts| >= 1
    requires forall k | 0 <= k < |parts| :: !Dropped(parts[k], psp) && |parts[k]| <= 20
    ensures KeptPrefix(parts, psp) == Join(parts, "-") + "-"
    decreases |parts|
  {
    var init := parts[..|parts| - 1];
    var last := parts[|parts| - 1];
    assert Piece(last, psp) == last + "-";
    if |parts| == 1 {
      assert init == [];
    } else {
      assert forall k | 0 <= k < |init| :: init[k] == parts[k];
      KeptPrefixAllKept(init, psp);
      JoinSnoc(init, last, "-");
      assert init + [last] == parts;
      calc {
        KeptPrefix(parts, psp);
        KeptPrefix(init, psp) + Piece(last, psp);
        Join(init, "-") + "-" + (last + "-");
        Join(init + [last], "-") + "-";
      }
    }
  }

  /** The HTML name ends with the last `_`-segment of the asset name, and
      what comes before it holds no date. */
  lemma HtmlNameShape(name: string, psp: seq<string>)
    requires HtmlNameOf(name, psp).Some?
    ensures var h := HtmlNameOf(name, psp).value; var last := LastSegment(name, '_');
      |last| <= |h| && h[|h| - |last|..] == last && !HasTwoDigits(h[..|h| - |last|])
  {
    var segments := Split(name, '_');
    var k := KeptPrefix(Split(segments[|segments| - 2], '-'), psp);
    KeptPrefixHasNoDate(Split(segments[|segments| - 2], '-'), psp);
    var h := k + segments[|segments| - 1];
    assert h[..|h| - |segments[|segments| - 1]|] == k;
  }

  /** A name whose local part has only short, ordinary parts keeps it whole:
      the HTML name is the local name, `-`, and the asset type. */
  lemma HtmlNameOfCleanName(name: string, psp: seq<string>)
    requires |Split(name, '_')| >= 2
    requires var segments := Split(name, '_');
      forall part | part in Split(segments[|segments| - 2], '-') :: !Dropped(part, psp) && |part| <= 20
    ensures var segments := Split(name, '_');
      HtmlNameOf(name, psp) == Some(segments[|segments| - 2] + "-" + segments[|segments| - 1])
  {
    var segments := Split(name, '_');
    var local := segments[|segments| - 2];
    var parts := Split(local, '-');
    assert forall k | 0 <= k < |parts| :: parts[k] in parts;
    KeptPrefixAllKept(parts, psp);
    JoinSplit(local, '-');
    assert HtmlNameOf(name, psp) == Some(KeptPrefix(parts, psp) + segments[|segments| - 1]);
  }

  // ---------------------------------------------------------------- eloqua_asset_name checks

  /** Why a pasted asset name is refused, in the order the checks run. */
  datatype NameError =
    | WrongPartCount(found: nat)
    | SlashOutsideCampaign
    | UnknownCountryCode(code: string)
    | UnknownSegment(segment: string)
    | UnknownCampaign(campaign: string)

  /** The name checks of `eloqua_asset_name`, run once: the name itself, or
      the first failing check. */
  function CheckName(name: string, segments: seq<string>, campaigns: seq<string>): (r: Result<string, NameError>)
    ensures var p := Split(name, '_');
      r.Ok? <==> |p| == 5 && '/' !in name && StartsWith(p[0], "WK") && p[1] in segments && p[2] in campaigns
    ensures r.Ok? ==> r.value == name
    ensures var p := Split(name, '_');
      r.Err? && r.error.WrongPartCount? <==> |p| != 5
    ensures r.Err? && r.error.WrongPartCount? ==> r.error.found == |Split(name, '_')|
    ensures r == Err(SlashOutsideCampaign) <==> |Split(name, '_')| == 5 && '/' in name
    ensures var p := Split(name, '_');
      r.Err? && r.error.UnknownCountryCode? <==> |p| == 5 && '/' !in name && !StartsWith(p[0], "WK")
    ensures var p := Split(name, '_');
      r.Err? && r.error.UnknownSegment? <==>
        |p| == 5 && '/' !in name && StartsWith(p[0], "WK") && p[1] !in segments
  {
    var p := Split(name, '_');
    if |p| != 5 then Err(WrongPartCount(|p|))
    else if '/' in name then Err(SlashOutsideCampaign)
    else if p[0][..if |p[0]| < 2 then |p[0]| else 2] != "WK" then Err(UnknownCountryCode(p[0]))
    else if p[1] !in segments then Err(UnknownSegment(p[1]))
    else if p[2] !in campaigns then Err(UnknownCampaign(p[2]))
    else Ok(name)
  }

  /** An accepted name always has an HTML name, ending with its fifth part. */
  lemma AcceptedNameHasHtmlName(name: string, segments: seq<string>, campaigns: seq<string>, psp: seq<string>)
    requires CheckName(name, segments, campaigns).Ok?
    ensures HtmlNameOf(name, psp).Some?
    ensures var h := HtmlNameOf(name, psp).value; var p4 := Split(name, '_')[4];
      |p4| <= |h| && h[|h| - |p4|..] == p4
  {
    HtmlNameShape(name, psp);
  }

  // ---------------------------------------------------------------- definition URIs

  /** `import_eloqua['uri'][1:]`: the server's URI without its first
      character (the leading `/`); an empty URI stays empty. */
  function DefinitionUri(serverUri: string): (r: string)
    ensures |serverUri| > 0 ==> [serverUri[0]] + r == serverUri
    ensures |serverUri| == 0 ==> r == ""
  {
    if |serverUri| == 0 then "" else serverUri[1..]
  }

  /** The sync request names `/` + the definition URI, which is the
      server's own URI whenever that starts with `/`. */
  lemma SyncedInstanceIsServerUri(serverUri: string)
    requires StartsWith(serverUri, "/")
    ensures "/" + DefinitionUri(serverUri) == serverUri
  {
  }

  // ---------------------------------------------------------------- upload records

  /** One contact row of a contact import. */
  datatype ContactRecord = ContactRecord(sourceCountry: string, emailAddress: string)

  /** One row of an external-activity import. */
  datatype ActivityRecord = ActivityRecord(
    emailAddress: string, campaignId: string, assetName: string,
    assetType: string, assetDate: string, activityType: string)

  function ContactRecords(contacts: seq<string>, sourceCountry: string): (r: seq<ContactRecord>)
    ensures |r| == |contacts|
    ensures forall i | 0 <= i < |contacts| :: r[i] == ContactRecord(sourceCountry, contacts[i])
  {
    if |contacts| == 0 then []
    else ContactRecords(contacts[..|contacts| - 1], sourceCountry) + [ContactRecord(sourceCountry, contacts[|contacts| - 1])]
  }

  function EmailsOf(records: seq<ContactRecord>): (r: seq<string>)
    ensures |r| == |records|
    ensures forall i | 0 <= i < |records| :: r[i] == records[i].emailAddress
  {
    if |records| == 0 then [] else [records[0].emailAddress] + EmailsOf(records[1..])
  }

  /** The upload holds exactly the given addresses, in order, every one
      tagged with the same source country. */
  lemma ContactRecordsRoundTrip(contacts: seq<string>, sourceCountry: string)
    ensures EmailsOf(ContactRecords(contacts, sourceCountry)) == contacts
    ensures forall r | r in ContactRecords(contacts, sourceCountry) :: r.sourceCountry == sourceCountry
  {
  }

  /** `eloqua_import_contacts`: the records posted, the count returned, and
      the path the records are posted to (under the bulk root). */
  method ImportContacts(contacts: seq<string>, uri: string, sourceCountry: string)
    returns (count: nat, upload: seq<ContactRecord>, dataPath: string)
    ensures count == |contacts|
    ensures upload == ContactRecords(contacts, sourceCountry)
    ensures dataPath == uri + "/data"
  {
    count := 0;
    upload := [];
    for i := 0 to |contacts|
      invariant count == i
      invariant upload == ContactRecords(contacts[..i], sourceCountry)
    {
      assert contacts[..i + 1][..i] == contacts[..i];
      upload := upload + [ContactRecord(sourceCountry, contacts[i])];
      count := count + 1;
    }
    assert contacts[..|contacts|] == contacts;
    dataPath := uri + "/data";
  }

  /** The six positional fields of an activity, as a record. */
  function ActivityRecordOf(activity: seq<string>): ActivityRecord
    requires |activity| >= 6
  {
    ActivityRecord(activity[0], activity[1], activity[2], activity[3], activity[4], activity[5])
  }

  function FieldsOf(record: ActivityRecord): seq<string>
  {
    [record.emailAddress, record.campaignId, record.assetName, record.assetType, record.assetDate, record.activityType]
  }

  predicate AllHaveSixFields(activities: seq<seq<string>>)
  {
    forall i | 0 <= i < |activities| :: |activities[i]| >= 6
  }

  function ActivityRecords(activities: seq<seq<string>>): (r: seq<ActivityRecord>)
    requires AllHaveSixFields(activities)
    ensures |r| == |activities|
    ensures forall i | 0 <= i < |activities| :: r[i] == ActivityRecordOf(activities[i])
  {
    if |activities| == 0 then []
    else ActivityRecords(activities[..|activities| - 1]) + [ActivityRecordOf(activities[|activities| - 1])]
  }

  /** A record keeps the first six fields of its activity, in order; an
      activity of exactly six fields is recovered from its record. */
  lemma ActivityRecordRoundTrip(activity: seq<string>)
    requires |activity| >= 6
    ensures FieldsOf(ActivityRecordOf(activity)) == activity[..6]
    ensures |activity| == 6 ==> FieldsOf(ActivityRecordOf(activity)) == activity
  {
  }

  /** `eloqua_import_webinar_activity`. An activity with fewer than six
      fields makes the record construction fail (an index error) before
      anything is posted: `Err(i)` names the first such activity. */
  method ImportWebinarActivity(activities: seq<seq<string>>, uri: string)
    returns (r: Result<(nat, seq<ActivityRecord>, string), nat>)
    ensures r.Ok? <==> AllHaveSixFields(activities)
    ensures r.Ok? ==> r.value.0 == |activities| && r.value.1 == ActivityRecords(activities) && r.value.2 == uri + "/data"
    ensures r.Err? ==> r.error < |activities| && |activities[r.error]| < 6
    ensures r.Err? ==> AllHaveSixFields(activities[..r.error])
  {
    var count := 0;
    var upload: seq<ActivityRecord> := [];
    for i := 0 to |activities|
      invariant count == i
      invariant AllHaveSixFields(activities[..i])
      invariant upload == ActivityRecords(activities[..i])
    {
      var activity := activities[i];
      if |activity| < 6 {
        return Err(i);
      }
      assert activities[..i + 1][..i] == activities[..i];
      upload := upload + [ActivityRecordOf(activity)];
      count := count + 1;
    }
    assert activities[..|activities|] == activities;
    return Ok((count, upload, uri + "/data"));
  }

  // ---------------------------------------------------------------- get_eloqua_auth

  /** The string that is Base64-encoded into the API key. */
  function Credentials(domain: string, user: string, password: string): string
  {
    domain + "\\" + user + ":" + password
  }

  /** How a receiver splits the credentials: the company name up to the
      first backslash, then the user up to the first colon, then the
      password (section 2 of RFC 7617 splits user-id and password at the
      first colon). */
  function ParseCredentials(s: string): Option<(string, string, string)>
  {
    match FindFrom(s, "\\", 0)
    case None => None
    case Some(b) =>
      var rest := s[b + 1..];
      match FindFrom(rest, ":", 0)
      case None => None
      case Some(c) => Some((s[..b], rest[..c], rest[c + 1..]))
  }

  lemma FirstOccurrenceOfChar(s: string, c: char, k: nat)
    requires k < |s| && s[k] == c && c !in s[..k]
    ensures FindFrom(s, [c], 0) == Some(k)
  {
    assert s[k..k + 1] == [c];
    assert OccursAt(s, [c], k);
    forall j | 0 <= j < k ensures !OccursAt(s, [c], j) {
      assert s[..k][j] == s[j] != c;
      assert s[j..j + 1][0] == s[j];
    }
    var r := FindFrom(s, [c], 0);
    assert r.Some? && r.value <= k;
  }

  /** The credentials can be split back into company, user and password
      whenever the company has no backslash and the user no colon. */
  lemma CredentialsRoundTrip(domain: string, user: string, password: string)
    requires '\\' !in domain && ':' !in user
    ensures ParseCredentials(Credentials(domain, user, password)) == Some((domain, user, password))
  {
    var s := Credentials(domain, user, password);
    assert s[..|domain|] == domain;
    FirstOccurrenceOfChar(s, '\\', |domain|);
    var rest := s[|domain| + 1..];
    assert rest == user + ":" + password;
    assert rest[..|user|] == user;
    FirstOccurrenceOfChar(rest, ':', |user|);
  }

  /** The API key: the credentials through the encoder (UTF-8 then Base64,
      section 4 of RFC 4648), which the model leaves abstract. */
  function AuthKey(encode: string -> string, domain: string, user: string, password: string): string
  {
    encode(Credentials(domain, user, password))
  }

  /** The `Authorization` header value of every call to the API. */
  function AuthHeader(key: string): string
  {
    "Basic " + key
  }

  /** With an encoder that loses nothing, distinct accounts (company without
      a backslash, user without a colon) never share an API key. */
  lemma AuthKeysDistinct(encode: string -> string, d1: string, u1: string, p1: string, d2: string, u2: string, p2: string)
    requires forall x, y :: encode(x) == encode(y) ==> x == y
    requires '\\' !in d1 && ':' !in u1 && '\\' !in d2 && ':' !in u2
    requires (d1, u1, p1) != (d2, u2, p2)
    ensures AuthHeader(AuthKey(encode, d1, u1, p1)) != AuthHeader(AuthKey(encode, d2, u2, p2))
  {
    CredentialsRoundTrip(d1, u1, p1);
    CredentialsRoundTrip(d2, u2, p2);
    var k1 := AuthKey(encode, d1, u1, p1);
    var k2 := AuthKey(encode, d2, u2, p2);
    assert Credentials(d1, u1, p1) != Credentials(d2, u2, p2);
    assert k1 != k2;
    assert AuthHeader(k1)[6..] == k1 && AuthHeader(k2)[6..] == k2;
  }

  /** The bulk and REST roots built from the instance's base URL: the base
      followed by the 14-character version path of each API. */
  function BulkRoot(base: string): (r: string)
    ensures StartsWith(r, base)
    ensures |r| == |base| + 14 && r[|base|..] == "/api/BULK/2.0/"
  {
    base + "/api/BULK/2.0/"
  }

  function RestRoot(base: string): (r: string)
    ensures StartsWith(r, base)
    ensures |r| == |base| + 14 && r[|base|..] == "/api/REST/2.0/"
    ensures r != BulkRoot(base)
  {
    var r := base + "/api/REST/2.0/";
    assert r[|base| + 5] != BulkRoot(base)[|base| + 5];
    r
  }

  /** No base's REST root is any base's bulk root: both paths have the same
      length, so the bases would have the same length, and the two roots
      then differ in the letter after `/api/`. */
  lemma RootsApart(b1: string, b2: string)
    ensures BulkRoot(b1) != RestRoot(b2)
  {
    if |b1| == |b2| {
      assert BulkRoot(b1)[|b1| + 5] == 'B';
      assert RestRoot(b2)[|b2| + 5] == 'R';
    }
  }

  /** Each root names its instance: equal roots come from equal bases. */
  lemma RootsDetermineBase(b1: string, b2: string)
    ensures BulkRoot(b1) == BulkRoot(b2) ==> b1 == b2
    ensures RestRoot(b1) == RestRoot(b2) ==> b1 == b2
  {
    if BulkRoot(b1) == BulkRoot(b2) {
      assert b1 == BulkRoot(b1)[..|b1|];
      assert b2 == BulkRoot(b2)[..|b2|];
    }
    if RestRoot(b1) == RestRoot(b2) {
      assert b1 == RestRoot(b1)[..|b1|];
      assert b2 == RestRoot(b2)[..|b2|];
    }
  }

  // ---------------------------------------------------------------- e-mail clean-up

  /** The clean-up of e-mail code before upload: drop the two technical
      comments, then close every `<br>` tag. */
  function CleanEmailCode(code: string): string
  {
    CloseBreaks(StripComments(code))
  }

  /** The first step: both technical comments removed, in that order. */
  function StripComments(code: string): string
  {
    Replace(Replace(code, "<!--pre-start-->", ""), "<!--pre-end-->", "")
  }

  /** The second step: every `<br>` written as `<br/>`. */
  function CloseBreaks(text: string): string
  {
    Replace(text, "<br>", "<br/>")
  }

  /** A text the clean-up closes starts with a '<' whenever it starts with a
      closed tag; so a start free of '<' is the input's own start. */
  lemma {:induction false} CloseBreaksKeepsStart(t: string, p: string)
    requires '<' !in p
    ensures StartsWith(CloseBreaks(t), p) ==> StartsWith(t, p)
    decreases |p|
  {
    if |p| > 0 && |t| >= 4 {
      if t[..4] == "<br>" {
        assert CloseBreaks(t)[0] == '<' != p[0];
      } else {
        assert CloseBreaks(t) == [t[0]] + CloseBreaks(t[1..]);
        CloseBreaksKeepsStart(t[1..], p[1..]);
        if StartsWith(CloseBreaks(t), p) {
          assert CloseBreaks(t)[1..][..|p| - 1] == p[1..];
          assert t[..|p|] == [t[0]] + t[1..][..|p| - 1];
        }
      }
    }
  }

  /** No `<br>` is left after the clean-up: a `<br/>` it writes can never
      be read, with what follows, as a new `<br>`. */
  lemma {:induction false} CloseBreaksLeavesNoBreak(t: string)
    ensures !Contains(CloseBreaks(t), "<br>")
    decreases |t|
  {
    var r := CloseBreaks(t);
    if |t| < 4 {
      AbsentWhenLonger(r, "<br>");
    } else if t[..4] == "<br>" {
      var rest := CloseBreaks(t[4..]);
      CloseBreaksLeavesNoBreak(t[4..]);
      assert r == "<br/>" + rest;
      forall i: nat | i <= |r| ensures !OccursAt(r, "<br>", i) {
        if i + 4 <= |r| {
          if i < 5 {
            assert r[i..i + 4][0] == r[i] && r[i..i + 4][3] == r[i + 3];
            assert r[i] != '<' || r[i + 3] != '>';
          } else {
            assert r[i..i + 4] == rest[i - 5..i - 5 + 4];
            assert !OccursAt(rest, "<br>", i - 5);
          }
        }
      }
    } else {
      var rest := CloseBreaks(t[1..]);
      CloseBreaksLeavesNoBreak(t[1..]);
      assert r == [t[0]] + rest;
      forall i: nat | i <= |r| ensures !OccursAt(r, "<br>", i) {
        if i + 4 <= |r| {
          if i == 0 {
            assert t[0] != '<' || !StartsWith(t[1..], "br>") by {
              assert t[..4] == [t[0]] + t[1..][..3];
            }
            CloseBreaksKeepsStart(t[1..], "br>");
            assert r[0..4][0] == t[0] && r[0..4][1..] == rest[..3];
            assert "<br>"[1..] == "br>";
          } else {
            assert r[i..i + 4] == rest[i - 1..i - 1 + 4];
            assert !OccursAt(rest, "<br>", i - 1);
          }
        }
      }
    }
  }

  /** A `<br>` right after a text holding none is the first one found, so
      the text before it goes through as it is closed on its own. */
  lemma {:induction false} CloseBreaksAtBreak(a: string, x: string)
    requires !Contains(a, "<br>")
    ensures CloseBreaks(a + "<br>" + x) == CloseBreaks(a) + "<br/>" + CloseBreaks(x)
    decreases |a|
  {
    var s := a + "<br>" + x;
    if |a| == 0 {
      assert s[..4] == "<br>";
      assert s[4..] == x;
    } else {
      assert s[3] != '>' || s[..4] == a[..4] by {
        if |a| < 4 {
          assert s[3] == "<br>"[3 - |a|];
        } else {
          assert s[..4] == a[..4];
        }
      }
      if |a| >= 4 {
        assert !OccursAt(a, "<br>", 0);
      }
      assert s[..4] != "<br>";
      assert s[1..] == a[1..] + "<br>" + x;
      if Contains(a[1..], "<br>") {
        ContainsTail(a, "<br>");
      }
      CloseBreaksAtBreak(a[1..], x);
      if |a| >= 4 {
        ReplaceMiss(a, "<br>", "<br/>");
      } else {
        ReplaceShort(a, "<br>", "<br/>");
        ReplaceShort(a[1..], "<br>", "<br/>");
        assert [a[0]] + a[1..] == a;
      }
    }
  }

  /** Every `<br>` of the text becomes `<br/>` and nothing else changes:
      a text made of pieces without `<br>`, joined by `<br>`, comes
      out as the same pieces joined by `<br/>`. */
  lemma {:induction false} CloseBreaksJoin(parts: seq<string>)
    requires forall k | 0 <= k < |parts| :: !Contains(parts[k], "<br>")
    ensures CloseBreaks(Join(parts, "<br>")) == Join(parts, "<br/>")
    decreases |parts|
  {
    if |parts| == 0 {
    } else if |parts| == 1 {
      ReplaceAbsent(parts[0], "<br>", "<br/>");
    } else {
      CloseBreaksJoin(parts[1..]);
      CloseBreaksAtBreak(parts[0], Join(parts[1..], "<br>"));
      ReplaceAbsent(parts[0], "<br>", "<br/>");
    }
  }

  /** The uploaded code holds no unclosed `<br>`. */
  lemma CleanEmailCodeClosesAll(code: string)
    ensures !Contains(CleanEmailCode(code), "<br>")
  {
    CloseBreaksLeavesNoBreak(StripComments(code));
  }

  /** When the comment-free code is pieces without `<br>` joined by `<br>`,
      the uploaded code is the same pieces joined by `<br/>`. */
  lemma CleanEmailCodeClosesEach(code: string, parts: seq<string>)
    requires StripComments(code) == Join(parts, "<br>")
    requires forall k | 0 <= k < |parts| :: !Contains(parts[k], "<br>")
    ensures CleanEmailCode(code) == Join(parts, "<br/>")
  {
    CloseBreaksJoin(parts);
  }

  /** Code holding neither comment nor an unclosed `<br>` is uploaded as it is. */
  lemma CleanEmailCodeKeepsCleanCode(code: string)
    requires !Contains(code, "<!--pre-start-->") && !Contains(code, "<!--pre-end-->") && !Contains(code, "<br>")
    ensures CleanEmailCode(code) == code
  {
    ReplaceAbsent(code, "<!--pre-start-->", "");
    ReplaceAbsent(code, "<!--pre-end-->", "");
    ReplaceAbsent(code, "<br>", "<br/>");
  }

  /** Text free of `<` is untouched by the clean-up. */
  lemma CleanEmailCodeKeepsPlainText(code: string)
    requires '<' !in code
    ensures CleanEmailCode(code) == code
  {
    AbsentByChar(code, "<!--pre-start-->", 0);
    AbsentByChar(code, "<!--pre-end-->", 0);
    AbsentByChar(code, "<br>", 0);
    CleanEmailCodeKeepsCleanCode(code);
  }

  // ---------------------------------------------------------------- eloqua_get_assets defaults

  /** The `count` argument: left blank, or a number (0 counts as blank). */
  datatype CountArg = Blank | Given(n: int)

  predicate IsBlank(count: CountArg)
  {
    count == Blank || count == Given(0)
  }

  /** The page size `eloqua_get_assets` asks for. */
  function AssetsPageSize(count: CountArg, depth: string): (r: int)
    ensures IsBlank(count) && depth == "minimal" ==> r == 500
    ensures IsBlank(count) && depth != "minimal" ==> r == 20
    ensures !IsBlank(count) ==> r == count.n
    ensures r != 0
  {
    if IsBlank(count) && depth == "minimal" then 500
    else if IsBlank(count) then 20
    else count.n
  }

  // ---------------------------------------------------------------- eloqua_get_form_data

  const FormDataPageSize: nat := 100

  /** `eloqua_get_form_data`: every fill of the form, in page order, and the
      total the stopping page reported. */
  method GetFormData<T>(pages: seq<Paging.Page<T>>) returns (r: Option<(seq<T>, int)>, requested: seq<nat>)
    ensures r == Paging.Collected(pages, FormDataPageSize)
    ensures requested == Paging.Requested(pages, FormDataPageSize)
  {
    r, requested := Paging.Collect(pages, FormDataPageSize);
  }
}
