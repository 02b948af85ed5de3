/**
 * What the handler sends once the loop ends: an alert composed from the
 * findings, an all-clear notice when there are none, or an error notice when
 * the listing or the loop raised. The notice is returned as a value in place
 * of the publish call.
 */
module Report {
  import opened Inputs
  import opened Classifier
  import opened Audit
  import Text

  const AlertSubject := "AWS Security Alert: Public S3 Bucket(s) Detected!"
  const AllClearSubject := "AWS Security Audit: S3 Buckets All Clear"
  const ErrorSubject := "AWS Security Audit Error!"

  const HeaderLead := "Cloud Security Alert: Found "
  const HeaderTail := " potentially public S3 bucket(s)!\n\n"

  const BucketLabel := "Bucket: "
  const ReasonsLabel := "Reasons: "
  const TimestampLabel := "Timestamp: "
  const LineEnd := "\n"
  const BlockEnd := "\n\n"

  /** The first line of the alert, with the number of findings. */
  function Header(n: nat): (line: string)
  {
    HeaderLead + Text.NatToDecimal(n) + HeaderTail
  }

  function ReasonTexts(rs: seq<Reason>): (texts: seq<string>)
  {
    seq(|rs|, i requires 0 <= i < |rs| => ReasonText(rs[i]))
  }

  /** The three lines of the alert for one finding, and the blank line after them. */
  function Block(f: Finding): (block: string)
  {
    BucketLabel + f.bucketName + LineEnd +
    ReasonsLabel + Text.JoinComma(ReasonTexts(f.reasons)) + LineEnd +
    TimestampLabel + f.timestamp + BlockEnd
  }

  function Blocks(fs: seq<Finding>): (text: string)
  {
    if fs == [] then "" else Blocks(fs[..|fs| - 1]) + Block(fs[|fs| - 1])
  }

  /** The alert message for a findings list. */
  function AlertMessage(fs: seq<Finding>): (message: string)
  {
    Header(|fs|) + Blocks(fs)
  }

  function AllClearMessage(clock: string): (message: string)
  {
    "S3 Public Bucket audit completed at " + clock + ". No publicly accessible buckets found."
  }

  function ErrorMessage(errorText: string): (message: string)
  {
    "An error occurred during S3 public bucket audit: " + errorText
  }

  /** One publish call: its subject and its message. */
  datatype Notice = Notice(subject: string, message: string)

  /** The notice the handler publishes. `clock` is the reading the all-clear
      message shows; `errorText` is how the escaping exception prints. */
  function NoticeFor(listing: Listing, clock: string, errorText: string): (notice: Notice)
  {
    match listing
    case ListingFailed => Notice(ErrorSubject, ErrorMessage(errorText))
    case Listed(bs) =>
      match AuditOutcome(bs)
      case RunFailed => Notice(ErrorSubject, ErrorMessage(errorText))
      case Completed(fs) =>
        if fs != [] then Notice(AlertSubject, AlertMessage(fs))
        else Notice(AllClearSubject, AllClearMessage(clock))
  }

  lemma Assoc(a: string, b: string, c: string)
    ensures (a + b) + c == a + (b + c)
  {
  }

  /** The three appends of one loop turn add that finding's block. */
  lemma AppendedBlock(w: string, f: Finding)
    ensures w + BucketLabel + f.bucketName + LineEnd
      + ReasonsLabel + Text.JoinComma(ReasonTexts(f.reasons)) + LineEnd
      + TimestampLabel + f.timestamp + BlockEnd == w + Block(f)
  {
    var j := Text.JoinComma(ReasonTexts(f.reasons));
    var x1 := BucketLabel;
    var x2 := x1 + f.bucketName;
    var x3 := x2 + LineEnd;
    var x4 := x3 + ReasonsLabel;
    var x5 := x4 + j;
    var x6 := x5 + LineEnd;
    var x7 := x6 + TimestampLabel;
    var x8 := x7 + f.timestamp;
    assert Block(f) == x8 + BlockEnd;
    Assoc(w, x1, f.bucketName);
    Assoc(w, x2, LineEnd);
    Assoc(w, x3, ReasonsLabel);
    Assoc(w, x4, j);
    Assoc(w, x5, LineEnd);
    Assoc(w, x6, TimestampLabel);
    Assoc(w, x7, f.timestamp);
    Assoc(w, x8, BlockEnd);
  }

  lemma BlocksStep(fs: seq<Finding>, i: nat)
    requires i < |fs|
    ensures Blocks(fs[..i + 1]) == Blocks(fs[..i]) + Block(fs[i])
  {
    assert fs[..i + 1][..i] == fs[..i];
  }

  /** The alert is built by appending each finding's lines to the header. */
  method ComposeAlert(fs: seq<Finding>) returns (message: string)
    ensures message == AlertMessage(fs)
  {
    message := Header(|fs|);
    for i := 0 to |fs|
      invariant message == Header(|fs|) + Blocks(fs[..i])
    {
      var f := fs[i];
      ghost var before := message;
      message := message + BucketLabel + f.bucketName + LineEnd;
      message := message + ReasonsLabel + Text.JoinComma(ReasonTexts(f.reasons)) + LineEnd;
      message := message + TimestampLabel + f.timestamp + BlockEnd;
      AppendedBlock(before, f);
      Assoc(Header(|fs|), Blocks(fs[..i]), Block(f));
      BlocksStep(fs, i);
    }
    assert fs[..|fs|] == fs;
  }

  /** `lambda_handler` from the listing to the publish call. */
  method Handler(listing: Listing, clock: string, errorText: string) returns (notice: Notice)
    ensures notice == NoticeFor(listing, clock, errorText)
  {
    if listing.ListingFailed? {
      return Notice(ErrorSubject, ErrorMessage(errorText));
    }
    var outcome := RunAudit(listing.buckets);
    if outcome.RunFailed? {
      return Notice(ErrorSubject, ErrorMessage(errorText));
    }
    var publicBuckets := outcome.findings;
    if publicBuckets != [] {
      var message := ComposeAlert(publicBuckets);
      notice := Notice(AlertSubject, message);
    } else {
      notice := Notice(AllClearSubject, AllClearMessage(clock));
    }
  }

  // ---------------------------------------------------------------------------
  // Reading the alert back

  /** The longest run of decimal digits at the start of `s`. */
  function LeadingDigits(s: string): (d: string)
    ensures d <= s
    ensures forall i :: 0 <= i < |d| ==> Text.IsDigit(d[i])
    ensures |d| < |s| ==> !Text.IsDigit(s[|d|])
  {
    if s != [] && Text.IsDigit(s[0]) then [s[0]] + LeadingDigits(s[1..]) else []
  }

  /** The count a reader finds in an alert's first line, if the line has one. */
  function ReadCount(m: string): (count: Option<nat>)
  {
    if HeaderLead <= m then
      var d := LeadingDigits(m[|HeaderLead|..]);
      if d == [] then None else Some(Text.DecimalValue(d))
    else None
  }

  /** Digits followed by the end or by a non-digit are read whole. */
  lemma {:induction false} LeadingDigitsStop(d: string, rest: string)
    requires forall i :: 0 <= i < |d| ==> Text.IsDigit(d[i])
    requires rest == [] || !Text.IsDigit(rest[0])
    ensures LeadingDigits(d + rest) == d
  {
    if d != [] {
      assert (d + rest)[1..] == d[1..] + rest;
      LeadingDigitsStop(d[1..], rest);
      assert [d[0]] + d[1..] == d;
    } else {
      assert d + rest == rest;
    }
  }

  /** The count in an alert's first line is the number of findings it lists. */
  lemma AlertCountReadable(fs: seq<Finding>)
    ensures ReadCount(AlertMessage(fs)) == Some(|fs|)
  {
    var digits := Text.NatToDecimal(|fs|);
    var rest := HeaderTail + Blocks(fs);
    Assoc(HeaderLead + digits, HeaderTail, Blocks(fs));
    Assoc(HeaderLead, digits, rest);
    assert AlertMessage(fs) == HeaderLead + (digits + rest);
    assert AlertMessage(fs)[|HeaderLead|..] == digits + rest;
    assert rest[0] == HeaderTail[0] == ' ';
    LeadingDigitsStop(digits, rest);
    Text.DecimalRoundTrip(|fs|);
  }

  /** The blocks of two findings lists are the concatenation of their blocks. */
  lemma {:induction false} BlocksAppend(a: seq<Finding>, b: seq<Finding>)
    ensures Blocks(a + b) == Blocks(a) + Blocks(b)
    decreases |b|
  {
    if b == [] {
      assert a + b == a;
    } else {
      var init := b[..|b| - 1];
      assert (a + b)[..|a + b| - 1] == a + init;
      BlocksAppend(a, init);
      Assoc(Blocks(a), Blocks(init), Block(b[|b| - 1]));
    }
  }

  /** The alert holds one block per finding, in findings order. */
  lemma {:induction false} AlertLists(fs: seq<Finding>, j: nat)
    requires j < |fs|
    ensures AlertMessage(fs) == Header(|fs|) + Blocks(fs[..j]) + Block(fs[j]) + Blocks(fs[j + 1..])
  {
    var h, b1, bj, b2 := Header(|fs|), Blocks(fs[..j]), Block(fs[j]), Blocks(fs[j + 1..]);
    assert fs == fs[..j] + [fs[j]] + fs[j + 1..];
    BlocksAppend(fs[..j] + [fs[j]], fs[j + 1..]);
    BlocksAppend(fs[..j], [fs[j]]);
    assert Blocks([fs[j]]) == Blocks([]) + bj;
    assert Blocks(fs) == (b1 + bj) + b2;
    Assoc(h, b1 + bj, b2);
    Assoc(h, b1, bj);
  }

  /** Distinct reason lists give distinct text lists. */
  lemma ReasonTextsInjective(rs1: seq<Reason>, rs2: seq<Reason>)
    requires ReasonTexts(rs1) == ReasonTexts(rs2)
    ensures rs1 == rs2
  {
    assert |rs1| == |ReasonTexts(rs1)| == |rs2|;
    forall i | 0 <= i < |rs1| ensures rs1[i] == rs2[i] {
      assert ReasonTexts(rs1)[i] == ReasonTexts(rs2)[i];
      ReasonTextInjective(rs1[i], rs2[i]);
    }
  }

  /** Splitting a finding's reasons line at ", " gives back each reason's text,
      in order, and those texts determine the reasons. */
  lemma ReasonsLineRecoverable(bs: seq<Observation>)
    ensures forall f :: f in Findings(bs) ==>
      Text.SplitComma(Text.JoinComma(ReasonTexts(f.reasons))) == ReasonTexts(f.reasons)
  {
    FindingsArePublicBuckets(bs);
    FindingsHaveReasons(bs);
    forall f | f in Findings(bs)
      ensures Text.SplitComma(Text.JoinComma(ReasonTexts(f.reasons))) == ReasonTexts(f.reasons)
    {
      var j :| 0 <= j < |Findings(bs)| && Findings(bs)[j] == f;
      var o := bs[PublicIndices(bs)[j]];
      ReasonsFreeOfSeparator(o);
      assert f.reasons == Classify(o).reasons;
      Text.SplitJoin(ReasonTexts(f.reasons));
    }
  }

  // ---------------------------------------------------------------------------
  // Which notice is sent

  /** Findings exist exactly when some listed bucket is flagged public. */
  lemma FindingsIffFlagged(bs: seq<Observation>)
    ensures Findings(bs) != [] <==> exists k :: 0 <= k < |bs| && Flagged(bs[k])
  {
    FindingsArePublicBuckets(bs);
    if Findings(bs) != [] {
      assert Flagged(bs[PublicIndices(bs)[0]]);
    }
  }

  /** Exactly one of the three notices is sent: the error notice when the
      listing fails or a bucket aborts the run, otherwise the alert when some
      bucket is flagged and the all-clear when none is. */
  lemma NoticeCases(listing: Listing, clock: string, errorText: string)
    ensures var n := NoticeFor(listing, clock, errorText);
      (n.subject == ErrorSubject <==> listing.ListingFailed? || AnyAborts(listing.buckets)) &&
      (n.subject == AlertSubject <==>
        listing.Listed? && !AnyAborts(listing.buckets) &&
        exists k :: 0 <= k < |listing.buckets| && Flagged(listing.buckets[k])) &&
      (n.subject == AllClearSubject <==>
        listing.Listed? && !AnyAborts(listing.buckets) &&
        forall k :: 0 <= k < |listing.buckets| ==> !Flagged(listing.buckets[k]))
  {
    assert |ErrorSubject| != |AlertSubject| && |ErrorSubject| != |AllClearSubject|;
    assert |AlertSubject| != |AllClearSubject|;
    if listing.Listed? {
      FindingsIffFlagged(listing.buckets);
    }
  }

  /** When some bucket is flagged and none aborts, the alert is sent; it states
      the number of flagged buckets and lists their findings one block each,
      in listing order. */
  lemma AlertCountsFlagged(bs: seq<Observation>, clock: string, errorText: string)
    requires !AnyAborts(bs) && exists k :: 0 <= k < |bs| && Flagged(bs[k])
    ensures NoticeFor(Listed(bs), clock, errorText) == Notice(AlertSubject, AlertMessage(Findings(bs)))
    ensures ReadCount(AlertMessage(Findings(bs))) == Some(|PublicIndices(bs)|)
    ensures forall j :: 0 <= j < |Findings(bs)| ==>
      AlertMessage(Findings(bs)) ==
        Header(|Findings(bs)|) + Blocks(Findings(bs)[..j]) + Block(Findings(bs)[j]) + Blocks(Findings(bs)[j + 1..])
  {
    FindingsIffFlagged(bs);
    FindingsArePublicBuckets(bs);
    AlertCountReadable(Findings(bs));
    forall j | 0 <= j < |Findings(bs)|
      ensures AlertMessage(Findings(bs)) ==
        Header(|Findings(bs)|) + Blocks(Findings(bs)[..j]) + Block(Findings(bs)[j]) + Blocks(Findings(bs)[j + 1..])
    {
      AlertLists(Findings(bs), j);
    }
  }
}
