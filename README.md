# S3 public-bucket audit, modelled in Dafny

This project models the S3 audit Lambda function `lambda_handler` in
`S3_AUDIT_CODE/lambda_function.py`. The function lists the account's buckets
and runs three exposure checks on each one:

1. the Public Access Block (PAB) configuration;
2. the ACL grants to the `AllUsers` and `AuthenticatedUsers` groups;
3. the bucket policy's public-read statements.

It collects a finding for every bucket flagged public. It then publishes
exactly one notice: an alert listing the findings, an all-clear notice, or an
error notice when an unexpected exception escapes.

Every storage-service call is replaced by its answer. So is the clock, and so
is the text an exception prints.
- `Inputs` holds those answers: one `Observation` per listed bucket, and a
  `Listing` that can itself fail.
- `Classifier` holds the three checks. `Classify` gives one bucket's verdict
  check by check. `AssessBucket` is the loop body, with its flag and its reason
  list. It runs the grant loop (`CheckAcl`) and the statement loop
  (`CheckPolicy`); each stops at its first match.
- `Audit` holds the bucket loop (`RunAudit`) and the findings it collects.
- `Report` holds the alert text, the all-clear and error notices, and the
  whole handler (`Handler`).
- `Text` holds Python's string operations as the handler uses them:
  `split('/')[-1]`, `in` on strings, `', '.join` and its inverse
  `split(', ')`, and `str(n)`.

Each method is proved equal to the function that specifies it. The properties
below are proved about those functions.

Each lookup has three kinds of answer: the data, a `ClientError`, or some
other exception. The other exception may be a connection error, a read
timeout, or a `KeyError` on a response that lacks a key (lines 35, 55 and 70).
It passes the `except ClientError` handlers at lines 43, 63 and 78, leaves the
bucket loop and reaches the handler at line 143. The model gives each lookup
its own case for this (`PabLookupRaised`, `AclLookupRaised`,
`PolicyLookupRaised`), and each of them aborts the run. The PAB case is tested
before the skip. Both come from the same `try`, so a raise there aborts
however the other lookups would have answered.

The statement loop `for statement in policy.get('Statement', [])` visits a
sequence of values. Each value is a statement object (`Parsed`) or something
else (`NotAnObject`): an element of a list that is not an object, a key of a
`Statement` that is itself an object, or a character of a `Statement` string.
`statement.get` raises on a value that is not an object, but only when the loop
reaches it. The loop stops at the first public-read statement. The condition
short-circuits like `and`. So an Action that `in` cannot search (null, a
number or a boolean) raises only after Effect and Principal have matched.
`PolicyScan` gives the loop's result: the first value that does not fall
through decides it.

A reason is kept as a `Reason` value. `ReasonText` renders it as the exact
message the handler appends, and `ReasonTextInjective` shows that no two
reasons share a message.

## Model

| member | source | states |
|---|---|---|
| Classifier.AssessBucket | S3_AUDIT_CODE/lambda_function.py:27-83 | one bucket's flag and reasons, computed check by check, equal the verdict `Classify` defines. A PAB client error skips the bucket. Any other exception from a lookup, from the statement loop or from policy parsing aborts the run |
| Classifier.CheckAcl | S3_AUDIT_CODE/lambda_function.py:55-62 | the grant loop sets the flag exactly when some grant is to a public group. It appends exactly `AclScan`'s reason, the one of the first such grant |
| Classifier.CheckPolicy | S3_AUDIT_CODE/lambda_function.py:71-77 | the statement loop raises exactly when `PolicyScan` says so. Otherwise it sets the flag and appends the policy reason exactly when the scan finds a match |
| Classifier.PabConfigReason | S3_AUDIT_CODE/lambda_function.py:34-42 | with a PAB configuration present and no abort, any false flag makes the bucket public with "not fully enabled" as its first reason, exactly once; all four flags true add no PAB reason |
| Classifier.NoPabReason | S3_AUDIT_CODE/lambda_function.py:43-47 | with no abort, a missing PAB configuration makes the bucket public with its own reason, first and once, worded differently from "not fully enabled" |
| Classifier.PabErrorSkips | S3_AUDIT_CODE/lambda_function.py:48-50 | any other PAB lookup error skips the bucket, whatever the ACL and policy lookups would answer |
| Classifier.LookupRaisedAborts | S3_AUDIT_CODE/lambda_function.py:33-83 | an exception that is not a `ClientError` aborts the run. From the PAB lookup it does so whatever the other lookups answer. From the ACL lookup, the policy lookup or a policy that does not parse, it does so unless a PAB client error has already skipped the bucket |
| Classifier.AclScanFirstMatch | S3_AUDIT_CODE/lambda_function.py:55-62 | the ACL scan reports at most one grant: nothing when no grant is to a public group, otherwise the first public grant in list order |
| Classifier.AclScanStopsAtFirst | S3_AUDIT_CODE/lambda_function.py:55-62 | the grant loop breaks at the first public grant, so the grants after it never change the ACL reason |
| Classifier.AclGroupNamed | S3_AUDIT_CODE/lambda_function.py:58-61 | the group named in an ACL reason is the last path segment of the grantee URI: `AllUsers` or `AuthenticatedUsers` |
| Classifier.AclScanGroups | S3_AUDIT_CODE/lambda_function.py:55-62 | every reason the ACL scan reports names `AllUsers` or `AuthenticatedUsers` |
| Classifier.AclReason | S3_AUDIT_CODE/lambda_function.py:52-65 | the first public grant yields the only ACL reason, naming its group; with no public grant, or a failed ACL lookup, there is no ACL reason |
| Classifier.PolicyReason | S3_AUDIT_CODE/lambda_function.py:67-83 | for an assessed bucket, the policy reason is present, at most once, exactly when some statement object allows `s3:GetObject` to the bare `"*"` principal; a missing policy or a failed lookup adds nothing |
| Classifier.NonPublicStatementsContributeNothing | S3_AUDIT_CODE/lambda_function.py:71-77 | a policy whose statement objects each have an Effect other than exactly "Allow", or a principal other than the bare `"*"`, adds no reason |
| Classifier.StatementStepMatches | S3_AUDIT_CODE/lambda_function.py:72-74 | the loop's condition matches a value exactly when it is a statement object that grants public read |
| Classifier.StatementShortCircuit | S3_AUDIT_CODE/lambda_function.py:71-74 | a value that is not an object raises at once. An Action that `in` cannot search raises under Effect "Allow" and Principal "*". It falls through under any other Effect, and under any Principal other than `"*"` |
| Classifier.PolicyScanFirstDecisive | S3_AUDIT_CODE/lambda_function.py:71-77 | the loop finds nothing exactly when every value falls through. Otherwise its result is the outcome of the first value that does not fall through |
| Classifier.PolicyScanAppend | S3_AUDIT_CODE/lambda_function.py:71-77 | values after the deciding one are never looked at: the loop over `a + b` is the loop over `a` unless all of `a` falls through, and then it is the loop over `b` |
| Classifier.PolicyScanOrder | S3_AUDIT_CODE/lambda_function.py:71-77 | a public-read statement followed by a non-object flags the bucket with the policy reason, since the loop breaks first; the same two values in the other order abort the run |
| Classifier.PrincipalAndActionMatching | S3_AUDIT_CODE/lambda_function.py:72-74 | `Principal == '*'` is string equality: `{"AWS": ["*"]}` is not public, and no principal other than `"*"` makes a statement public, whatever its Action. On an Allow/`"*"` statement, an Action string matches exactly when `s3:GetObject` occurs in it at some offset, and an Action list matches exactly when it holds `s3:GetObject`. A missing Action never matches |
| Classifier.ContributionsShaped | S3_AUDIT_CODE/lambda_function.py:41-76 | each check contributes at most one reason, and only a reason of its own kind |
| Classifier.PublicIffReasons | S3_AUDIT_CODE/lambda_function.py:41-76 | an assessed bucket is public exactly when its reason list is nonempty, and exactly when one of the three checks found exposure |
| Classifier.ReasonsInCheckOrder | S3_AUDIT_CODE/lambda_function.py:42-76 | the reasons come in check order PAB, ACL, policy: at most three, no two alike |
| Classifier.ReasonTextInjective | S3_AUDIT_CODE/lambda_function.py:42-76 | two reasons with the same message text are the same reason |
| Classifier.ReasonTextFree | S3_AUDIT_CODE/lambda_function.py:42-76 | no reason text the classifier can give contains the separator ", " |
| Classifier.ReasonsFreeOfSeparator | S3_AUDIT_CODE/lambda_function.py:42-76 | no reason of an assessed bucket contains ", " |
| Classifier.DemoPublic | S3_AUDIT_CODE/lambda_function.py:43-62 | a bucket with no PAB configuration and an `AllUsers` READ grant is flagged, with the missing-PAB reason and then `AllUsers`, in that order |
| Classifier.DemoPrivate | S3_AUDIT_CODE/lambda_function.py:37-62 | a bucket with all four PAB flags on and only an owner grant is not flagged and has no reasons |
| Audit.RunAudit | S3_AUDIT_CODE/lambda_function.py:25-94 | the bucket loop's result is `AuditOutcome`: the findings of the flagged buckets in listing order, or a failed run as soon as one bucket aborts |
| Audit.FindingsArePublicBuckets | S3_AUDIT_CODE/lambda_function.py:86-91 | there is one finding per flagged bucket, in listing order, holding that bucket's name, reasons and clock reading; no other bucket has a finding |
| Audit.FindingsAppend | S3_AUDIT_CODE/lambda_function.py:25-91 | the findings of a listing split in two are the findings of the first part followed by those of the second |
| Audit.FindingsHaveReasons | S3_AUDIT_CODE/lambda_function.py:86-91 | every finding carries between one and three reasons, in check order PAB, ACL, policy |
| Audit.AnyAbortsAppend | S3_AUDIT_CODE/lambda_function.py:25-30 | some bucket of a split listing aborts exactly when one in either part does |
| Audit.SkippedBucketOmitted | S3_AUDIT_CODE/lambda_function.py:48-50 | a bucket whose PAB lookup fails leaves the run's outcome as if it had not been listed |
| Audit.AbortDiscardsFindings | S3_AUDIT_CODE/lambda_function.py:25-94 | one bucket that aborts fails the whole run, wherever it is listed and whatever the other buckets hold |
| Report.ComposeAlert | S3_AUDIT_CODE/lambda_function.py:98-102 | the message built by appending three lines per finding to the header equals `AlertMessage` |
| Report.BlocksAppend | S3_AUDIT_CODE/lambda_function.py:99-102 | the blocks of two findings lists are the blocks of the first followed by those of the second |
| Report.AlertLists | S3_AUDIT_CODE/lambda_function.py:98-102 | the alert is the header followed by one block per finding, each finding's block in its place |
| Report.AlertCountReadable | S3_AUDIT_CODE/lambda_function.py:98 | reading the number after "Found " in the alert's first line gives back the number of findings |
| Report.LeadingDigits | S3_AUDIT_CODE/lambda_function.py:98 | the digit run read from the header is a prefix of the text, all digits, and stops at the first non-digit |
| Report.ReasonTextsInjective | S3_AUDIT_CODE/lambda_function.py:101 | two reason lists with the same texts are the same list |
| Report.ReasonsLineRecoverable | S3_AUDIT_CODE/lambda_function.py:101 | splitting any finding's "Reasons:" line at ", " gives back its reason texts, in order |
| Report.FindingsIffFlagged | S3_AUDIT_CODE/lambda_function.py:97 | the findings list is nonempty exactly when some listed bucket is flagged |
| Report.NoticeCases | S3_AUDIT_CODE/lambda_function.py:97-150 | exactly one notice is sent: the error notice when the listing fails or a bucket aborts; otherwise the alert when some bucket is flagged, else the all-clear |
| Report.AlertCountsFlagged | S3_AUDIT_CODE/lambda_function.py:97-127 | with a flagged bucket and no abort, the alert is sent, states the number of flagged buckets and lists every finding in its place |
| Report.Handler | S3_AUDIT_CODE/lambda_function.py:16-150 | the handler, from listing to notice, sends exactly `NoticeFor`'s notice |
| Text.LastSegmentShape | S3_AUDIT_CODE/lambda_function.py:61 | `split('/')[-1]` is a suffix without '/', and is either the whole string or preceded by '/' |
| Text.LastSegmentAfterSlash | S3_AUDIT_CODE/lambda_function.py:61 | the last segment of `p + "/" + q` is `q` when `q` has no '/' |
| Text.ContainsAt | S3_AUDIT_CODE/lambda_function.py:74 | `needle in text` holds exactly when the needle occurs at some offset |
| Text.SplitJoin | S3_AUDIT_CODE/lambda_function.py:101 | `split(', ')` undoes `', '.join` of a nonempty list whose elements hold no ", " |
| Text.NatToDecimal | S3_AUDIT_CODE/lambda_function.py:98 | `str(n)` is a nonempty string of decimal digits, starting with '0' only for zero and never with a leading zero when longer than one digit |
| Text.DecimalRoundTrip | S3_AUDIT_CODE/lambda_function.py:98 | reading back the decimal text of `n` gives `n` |

## Left out

- Printing: the `print` calls only log, and are not modelled.
- DynamoDB storage (lines 104-117) is not modelled. Each `put_item` failure is caught and only printed, so the notice never depends on it.
- The environment check (lines 10-14) runs at import time; it raises unless both variables are set. With the handler reached, `SNS_TOPIC_ARN` is set, so the model always publishes and drops the "not configured" branches.
- The return value (lines 152-155) is the same constant on every path, and is not modelled.
- The publish call is not modelled. It is replaced by the returned `Notice`. A publish that raises inside the `try` (lines 123-127, 136-140) would itself trigger the error notice; that case is not modelled.
- The clock is not modelled. `datetime.now().isoformat()` for each finding is part of that bucket's `Observation`. The all-clear time is a parameter of `Handler`. Its textual format is not modelled.
- The exception text is not modelled. `{e}` in the error message is an opaque parameter.
- JSON decoding is not modelled. A policy document arrives decoded into the values the statement loop visits; an empty `Statement` object or string yields no values. Some documents raise before the loop and are the one `PolicyUnparsable` case, which aborts the run. They are a document that does not parse, a document that is not an object, and a `Statement` that cannot be iterated.
- Missing PAB flag keys are not modelled as such. A configuration carries its four flags. If the `or` chain reaches a flag key that is absent, it raises `KeyError`, and the model covers that response by `PabLookupRaised`. A key after a false flag is never read, so a response lacking it is `PabFound` with that flag set to any value.
- Malformed ACL responses are not modelled as such. Grants are a list of grant objects, as the service returns them. A grant or grantee that is not an object makes `.get` raise if the loop reaches it before the first public grant; the model covers that response by `AclLookupRaised`. The loop breaks at the first public grant (line 62), so a value after that grant is never read. Such a response is `Grants` with any grant in that place (`AclScanStopsAtFirst`).
- Python's dynamic types are modelled only where the conditions can raise on them: a policy value that is not an object, and an Action that `in` cannot search. Any other unexpected JSON type, such as a number in `Effect`, only makes an equality false; the model represents it by any value that compares the same. An Action object counts as the list of its keys.
- Wildcard actions such as `s3:*` are not recognised by the source. The model reproduces this: such a statement is not flagged.
- Idempotence needs no lemma. The handler's outcome is a function of the observations, so repeating the audit on the same answers gives the same notice.
- Concurrency and the other services' internal behaviour are not modelled.
