/**
 * What the storage service answers about one bucket, with every client call
 * replaced by its result: the Public Access Block lookup, the ACL lookup and
 * the bucket-policy lookup, each a tagged result that keeps the error cases
 * the audit distinguishes.
 */
module Inputs {

  datatype Option<+T> = None | Some(value: T)

  /** The four flags of a `PublicAccessBlockConfiguration`. */
  datatype PabConfig = PabConfig(
    blockPublicAcls: bool,
    ignorePublicAcls: bool,
    blockPublicPolicy: bool,
    restrictPublicBuckets: bool)

  /** `get_public_access_block`: a configuration, the
      `NoSuchPublicAccessBlockConfiguration` error, any other client error, or
      an exception that is not a client error (a connection error, a timeout,
      a response without `PublicAccessBlockConfiguration`). */
  datatype PabLookup =
    | PabFound(config: PabConfig)
    | NoPabConfiguration
    | PabLookupFailed
    | PabLookupRaised

  /** A grantee dictionary; a key it lacks reads as `None` under `dict.get`. */
  datatype Grantee = Grantee(kind: Option<string>, uri: Option<string>)

  /** One ACL grant; a grant without a `Grantee` key reads as the empty grantee. */
  datatype Grant = Grant(grantee: Option<Grantee>, permission: string)

  /** `get_bucket_acl`: the grant list in the order returned, a client error,
      or an exception that is not a client error (a connection error, a
      timeout, a response without `Grants`). */
  datatype AclLookup =
    | Grants(grants: seq<Grant>)
    | AclLookupFailed
    | AclLookupRaised

  /** A statement's `Principal`: a bare string such as "*", or a mapping such as {"AWS": ["*"]}. */
  datatype Principal =
    | PrincipalName(name: string)
    | PrincipalMap(entries: map<string, seq<string>>)

  /** A statement's `Action`: a list of action names (an object's keys count as
      such a list), a single string, or a value `in` cannot search (null, a
      number, a boolean). */
  datatype Action =
    | ActionList(names: seq<string>)
    | ActionString(text: string)
    | ActionNotIterable

  /** One parsed policy statement; each key may be absent. */
  datatype Statement = Statement(
    effect: Option<string>,
    principal: Option<Principal>,
    action: Option<Action>)

  /** One value `for statement in policy.get('Statement', [])` visits: a
      statement object, or anything else (a string, a number, a list; the keys
      of a `Statement` that is an object; the characters of one that is a
      string), on which `statement.get` raises. */
  datatype Entry = Parsed(statement: Statement) | NotAnObject

  /** `get_bucket_policy` followed by `json.loads`: the values the statement
      loop visits, in order (none when the document has no `Statement` key);
      the `NoSuchBucketPolicy` error; any other client error; an exception of
      the lookup that is not a client error; or a document whose text does not
      parse, that is not an object, or whose `Statement` cannot be iterated,
      each of which raises an exception that is not a client error. */
  datatype PolicyLookup =
    | Statements(entries: seq<Entry>)
    | NoBucketPolicy
    | PolicyLookupFailed
    | PolicyLookupRaised
    | PolicyUnparsable

  /** Everything the audit learns about one listed bucket. `clock` is the text
      `datetime.now().isoformat()` yields when a finding for it is recorded. */
  datatype Observation = Observation(
    name: string,
    pab: PabLookup,
    acl: AclLookup,
    policy: PolicyLookup,
    clock: string)

  /** `list_buckets()['Buckets']` with each bucket's observation, in the order
      returned, or the exception the listing raises. */
  datatype Listing = Listed(buckets: seq<Observation>) | ListingFailed
}
