/**
 * The newsletter subscription service: the upsert `saveSubscription`, the
 * single `unsubscribe` (by e-mail first, by HTTP otherwise) and the batch
 * `unsubscribeAll`. The repository is a map from (user id, newsletter
 * name) to the record; the e-mail and HTTP sends are recorded in an outbox
 * and their outcomes are inputs.
 */
module Subscriptions {
  import opened Base

  datatype Status = Active | Unsubscribed

  /** A subscription record: the owner, the newsletter's name and sender address, the status and the unsubscribe routes. */
  datatype Subscription = Subscription(
    userId: string,
    name: string,
    newsletterEmail: string,
    status: Status,
    unsubscribeMailTo: Option<string>,
    unsubscribeHttpUrl: Option<string>)

  /** The lookup key of `findOneBy({ name, user: { id: userId } })`. */
  datatype Key = Key(userId: string, name: string)

  function KeyOf(s: Subscription): Key
  {
    Key(s.userId, s.name)
  }

  /** A message leaving the service. */
  datatype Outbound =
    | Email(to: string, subject: string, text: string, from: string)
    | HttpGet(url: string)

  /** The answer of `axios.get`. */
  datatype HttpResponse = HttpResponse(status: int, statusText: string)

  /** Why `unsubscribe` threw. */
  datatype UnsubscribeError =
    | EmailFailed(mailTo: string)
    | HttpFailed(statusText: string)
    | NoMethodDefined

  /** What `unsubscribe` ends with: the saved record, or the error it threw. */
  datatype Outcome = Saved(subscription: Subscription) | Threw(error: UnsubscribeError)

  /** The message of the `Error` thrown for each cause. */
  function ErrorMessage(e: UnsubscribeError): string
  {
    match e
    case EmailFailed(mailTo) => "Failed to unsubscribe, email: " + mailTo
    case HttpFailed(statusText) => "Failed to unsubscribe, response: " + statusText
    case NoMethodDefined => "No unsubscribe method defined"
  }

  /** The e-mail `sendUnsubscribeEmail` hands to `sendEmail`. */
  function UnsubscribeEmail(mailTo: string, newsletterEmail: string): Outbound
  {
    Email(mailTo, "Unsubscribe", "This message was automatically generated by Omnivore.", newsletterEmail)
  }

  /** The route `unsubscribe` takes for a record. */
  datatype Method = ByEmail(mailTo: string) | ByHttp(url: string) | NoMethod

  /** The mail-to address wins when truthy; the HTTP URL is used only when it is not and the URL is truthy. */
  function ChooseMethod(s: Subscription): (m: Method)
    ensures m.ByEmail? <==> Truthy(s.unsubscribeMailTo)
    ensures m.ByHttp? <==> !Truthy(s.unsubscribeMailTo) && Truthy(s.unsubscribeHttpUrl)
    ensures m.NoMethod? <==> !Truthy(s.unsubscribeMailTo) && !Truthy(s.unsubscribeHttpUrl)
    ensures m.ByEmail? ==> m.mailTo == s.unsubscribeMailTo.value && m.mailTo != ""
    ensures m.ByHttp? ==> m.url == s.unsubscribeHttpUrl.value && m.url != ""
  {
    if Truthy(s.unsubscribeMailTo) then ByEmail(s.unsubscribeMailTo.value)
    else if Truthy(s.unsubscribeHttpUrl) then ByHttp(s.unsubscribeHttpUrl.value)
    else NoMethod
  }

  /** The message `unsubscribe` sends for a record: none when no route is defined. */
  function Attempt(s: Subscription): seq<Outbound>
  {
    match ChooseMethod(s)
    case ByEmail(mailTo) => [UnsubscribeEmail(mailTo, s.newsletterEmail)]
    case ByHttp(url) => [HttpGet(url)]
    case NoMethod => []
  }

  /**
   * The outcome of `unsubscribe` given what `sendEmail` returned and what
   * the HTTP request answered (only the one the chosen route uses matters).
   */
  function UnsubscribeOutcome(s: Subscription, emailSent: bool, response: HttpResponse): Outcome
  {
    match ChooseMethod(s)
    case ByEmail(mailTo) => if emailSent then Saved(s.(status := Unsubscribed)) else Threw(EmailFailed(mailTo))
    case ByHttp(_) => if response.status == 200 then Saved(s.(status := Unsubscribed)) else Threw(HttpFailed(response.statusText))
    case NoMethod => Threw(NoMethodDefined)
  }

  /**
   * The record is saved as unsubscribed exactly when a route exists and its
   * send succeeded; the saved record differs from the argument in its status
   * only; with no route the call throws 'No unsubscribe method defined'.
   */
  lemma UnsubscribeOutcomeSpec(s: Subscription, emailSent: bool, response: HttpResponse)
    ensures UnsubscribeOutcome(s, emailSent, response).Saved? <==>
      (Truthy(s.unsubscribeMailTo) && emailSent) ||
      (!Truthy(s.unsubscribeMailTo) && Truthy(s.unsubscribeHttpUrl) && response.status == 200)
    ensures UnsubscribeOutcome(s, emailSent, response).Saved? ==>
      UnsubscribeOutcome(s, emailSent, response).subscription == s.(status := Unsubscribed)
    ensures UnsubscribeOutcome(s, emailSent, response) == Threw(NoMethodDefined) <==>
      !Truthy(s.unsubscribeMailTo) && !Truthy(s.unsubscribeHttpUrl)
    ensures ErrorMessage(NoMethodDefined) == "No unsubscribe method defined"
  {
  }

  /** With a truthy mail-to address the HTTP answer never matters and no HTTP request is made. */
  lemma EmailTakesPrecedence(s: Subscription, emailSent: bool, r1: HttpResponse, r2: HttpResponse)
    requires Truthy(s.unsubscribeMailTo)
    ensures UnsubscribeOutcome(s, emailSent, r1) == UnsubscribeOutcome(s, emailSent, r2)
    ensures Attempt(s) == [UnsubscribeEmail(s.unsubscribeMailTo.value, s.newsletterEmail)]
  {
  }

  /**
   * The record `saveSubscription` saves. An existing record becomes active
   * with the new sender address and keeps each unsubscribe route unless the
   * argument for it is truthy; otherwise a new active record is built from
   * the arguments as they are.
   */
  function Upserted(records: map<Key, Subscription>, userId: string, name: string, newsletterEmail: string,
                    mailTo: Option<string>, httpUrl: Option<string>): Subscription
  {
    var key := Key(userId, name);
    if key in records then
      var existing := records[key];
      existing.(status := Active,
                newsletterEmail := newsletterEmail,
                unsubscribeMailTo := if Truthy(mailTo) then mailTo else existing.unsubscribeMailTo,
                unsubscribeHttpUrl := if Truthy(httpUrl) then httpUrl else existing.unsubscribeHttpUrl)
    else
      Subscription(userId, name, newsletterEmail, Active, mailTo, httpUrl)
  }

  /** The repository after `saveSubscription`. */
  function SaveInto(records: map<Key, Subscription>, userId: string, name: string, newsletterEmail: string,
                    mailTo: Option<string>, httpUrl: Option<string>): map<Key, Subscription>
  {
    records[Key(userId, name) := Upserted(records, userId, name, newsletterEmail, mailTo, httpUrl)]
  }

  /** Every record is stored under its own (user id, name). */
  predicate KeyedByOwner(records: map<Key, Subscription>)
  {
    forall k :: k in records ==> KeyOf(records[k]) == k
  }

  /**
   * The saved record is active, carries the given sender address, owner and
   * name, and has each route set to a truthy argument, otherwise to the
   * stored route (existing record) or to the argument (new record).
   */
  lemma UpsertedSpec(records: map<Key, Subscription>, userId: string, name: string, newsletterEmail: string,
                     mailTo: Option<string>, httpUrl: Option<string>)
    requires KeyedByOwner(records)
    ensures var s := Upserted(records, userId, name, newsletterEmail, mailTo, httpUrl);
      var key := Key(userId, name);
      && s.status == Active && s.newsletterEmail == newsletterEmail && KeyOf(s) == key
      && (Truthy(mailTo) ==> s.unsubscribeMailTo == mailTo)
      && (Truthy(httpUrl) ==> s.unsubscribeHttpUrl == httpUrl)
      && (key in records && !Truthy(mailTo) ==> s.unsubscribeMailTo == records[key].unsubscribeMailTo)
      && (key in records && !Truthy(httpUrl) ==> s.unsubscribeHttpUrl == records[key].unsubscribeHttpUrl)
      && (key !in records ==> s.unsubscribeMailTo == mailTo && s.unsubscribeHttpUrl == httpUrl)
  {
  }

  /**
   * Saving adds at most the one key, keeps the repository keyed by owner
   * and leaves every other record untouched: no second record for the same
   * (user, name) can appear.
   */
  lemma SaveIntoFrame(records: map<Key, Subscription>, userId: string, name: string, newsletterEmail: string,
                      mailTo: Option<string>, httpUrl: Option<string>)
    requires KeyedByOwner(records)
    ensures var after := SaveInto(records, userId, name, newsletterEmail, mailTo, httpUrl);
      && after.Keys == records.Keys + {Key(userId, name)}
      && KeyedByOwner(after)
      && forall k :: k in records && k != Key(userId, name) ==> after[k] == records[k]
  {
  }

  /** Saving the same arguments twice leaves the repository as saving them once does. */
  lemma SaveIdempotent(records: map<Key, Subscription>, userId: string, name: string, newsletterEmail: string,
                       mailTo: Option<string>, httpUrl: Option<string>)
    ensures var once := SaveInto(records, userId, name, newsletterEmail, mailTo, httpUrl);
      SaveInto(once, userId, name, newsletterEmail, mailTo, httpUrl) == once
  {
    var key := Key(userId, name);
    var once := SaveInto(records, userId, name, newsletterEmail, mailTo, httpUrl);
    assert Upserted(once, userId, name, newsletterEmail, mailTo, httpUrl) == once[key];
  }

  /** The `find` of `unsubscribeAll`: the user's active records with the given sender address. */
  predicate IsTarget(s: Subscription, userId: string, newsletterEmail: string)
  {
    s.userId == userId && s.status == Active && s.newsletterEmail == newsletterEmail
  }

  /**
   * The repository after `unsubscribeAll`: each target record whose own
   * send succeeds is unsubscribed, whatever happened to the others; every
   * other record is as it was.
   */
  function AfterUnsubscribeAll(records: map<Key, Subscription>, userId: string, newsletterEmail: string,
                               emailSent: Key -> bool, response: Key -> HttpResponse): map<Key, Subscription>
  {
    map k | k in records ::
      if IsTarget(records[k], userId, newsletterEmail) && UnsubscribeOutcome(records[k], emailSent(k), response(k)).Saved?
      then records[k].(status := Unsubscribed) else records[k]
  }

  /**
   * The repository once `unsubscribe` has been attempted on the query
   * results listed in `order`, one after the other.
   */
  function Handled(records: map<Key, Subscription>, found: map<Key, Subscription>, order: seq<Key>,
                   emailSent: Key -> bool, response: Key -> HttpResponse): map<Key, Subscription>
    requires forall i :: 0 <= i < |order| ==> order[i] in found
  {
    if order == [] then records
    else
      var k := order[|order| - 1];
      var before := Handled(records, found, order[..|order| - 1], emailSent, response);
      var outcome := UnsubscribeOutcome(found[k], emailSent(k), response(k));
      if outcome.Saved? then before[KeyOf(found[k]) := outcome.subscription] else before
  }

  /** Handling a list of query results never adds or drops a repository key. */
  lemma {:induction false} HandledKeys(records: map<Key, Subscription>, found: map<Key, Subscription>, order: seq<Key>,
                                       emailSent: Key -> bool, response: Key -> HttpResponse)
    requires forall i :: 0 <= i < |order| ==> order[i] in found && order[i] in records && KeyOf(found[order[i]]) == order[i]
    ensures Handled(records, found, order, emailSent, response).Keys == records.Keys
  {
    if order != [] {
      HandledKeys(records, found, order[..|order| - 1], emailSent, response);
    }
  }

  /**
   * Whatever the order, handling a list of query results unsubscribes the
   * record at `k` exactly when `k` is listed and its own send succeeded, and
   * otherwise leaves it as it was.
   */
  lemma {:induction false} HandledAt(records: map<Key, Subscription>, found: map<Key, Subscription>, order: seq<Key>,
                                     emailSent: Key -> bool, response: Key -> HttpResponse, k: Key)
    requires forall i :: 0 <= i < |order| ==> order[i] in found && order[i] in records && KeyOf(found[order[i]]) == order[i]
    requires k in records
    ensures k in Handled(records, found, order, emailSent, response)
    ensures Handled(records, found, order, emailSent, response)[k] ==
      if k in order && UnsubscribeOutcome(found[k], emailSent(k), response(k)).Saved?
      then found[k].(status := Unsubscribed) else records[k]
  {
    if order != [] {
      var prefix, last := order[..|order| - 1], order[|order| - 1];
      HandledAt(records, found, prefix, emailSent, response, k);
      assert order == prefix + [last];
      if k == last {
        UnsubscribeOutcomeSpec(found[last], emailSent(last), response(last));
      } else {
        assert k in order <==> k in prefix;
      }
    }
  }

  /** `HandledAt` for every key, and the keys unchanged. */
  lemma HandledPointwise(records: map<Key, Subscription>, found: map<Key, Subscription>, order: seq<Key>,
                         emailSent: Key -> bool, response: Key -> HttpResponse)
    requires forall i :: 0 <= i < |order| ==> order[i] in found && order[i] in records && KeyOf(found[order[i]]) == order[i]
    ensures Handled(records, found, order, emailSent, response).Keys == records.Keys
    ensures forall k :: k in records ==>
      Handled(records, found, order, emailSent, response)[k] ==
        if k in order && UnsubscribeOutcome(found[k], emailSent(k), response(k)).Saved?
        then found[k].(status := Unsubscribed) else records[k]
  {
    HandledKeys(records, found, order, emailSent, response);
    forall k | k in records
      ensures Handled(records, found, order, emailSent, response)[k] ==
        if k in order && UnsubscribeOutcome(found[k], emailSent(k), response(k)).Saved?
        then found[k].(status := Unsubscribed) else records[k]
    {
      HandledAt(records, found, order, emailSent, response, k);
    }
  }

  /** The messages sent for the records listed, in order. */
  function SendsFor(found: map<Key, Subscription>, order: seq<Key>): seq<Outbound>
    requires forall i :: 0 <= i < |order| ==> order[i] in found
  {
    if order == [] then [] else SendsFor(found, order[..|order| - 1]) + Attempt(found[order[|order| - 1]])
  }

  /**
   * After the batch, a record differs from before only if it was a target,
   * and then only by having become unsubscribed. A target is unsubscribed
   * exactly when its own send succeeded, by e-mail or by HTTP, whatever the
   * other sends did; a failed send leaves its record as it was.
   */
  lemma AfterUnsubscribeAllSpec(records: map<Key, Subscription>, userId: string, newsletterEmail: string,
                                emailSent: Key -> bool, response: Key -> HttpResponse, k: Key)
    requires k in records
    ensures var after := AfterUnsubscribeAll(records, userId, newsletterEmail, emailSent, response);
      && after.Keys == records.Keys
      && (!IsTarget(records[k], userId, newsletterEmail) ==> after[k] == records[k])
      && (after[k] != records[k] ==> after[k] == records[k].(status := Unsubscribed))
      && (IsTarget(records[k], userId, newsletterEmail) ==>
            (after[k] == records[k].(status := Unsubscribed) <==>
               UnsubscribeOutcome(records[k], emailSent(k), response(k)).Saved?))
      && (!UnsubscribeOutcome(records[k], emailSent(k), response(k)).Saved? ==> after[k] == records[k])
      && (IsTarget(records[k], userId, newsletterEmail) && Truthy(records[k].unsubscribeMailTo) && emailSent(k) ==>
            after[k].status == Unsubscribed)
      && (IsTarget(records[k], userId, newsletterEmail) && !Truthy(records[k].unsubscribeMailTo) &&
          Truthy(records[k].unsubscribeHttpUrl) && response(k).status == 200 ==>
            after[k].status == Unsubscribed)
      && (IsTarget(records[k], userId, newsletterEmail) && !Truthy(records[k].unsubscribeMailTo) && !Truthy(records[k].unsubscribeHttpUrl) ==>
            after[k] == records[k])
  {
    UnsubscribeOutcomeSpec(records[k], emailSent(k), response(k));
  }

  /**
   * A second batch with the same outcomes only retries the targets that
   * stayed active: it makes no further change to the repository.
   */
  lemma UnsubscribeAllIdempotent(records: map<Key, Subscription>, userId: string, newsletterEmail: string,
                                 emailSent: Key -> bool, response: Key -> HttpResponse)
    ensures var once := AfterUnsubscribeAll(records, userId, newsletterEmail, emailSent, response);
      AfterUnsubscribeAll(once, userId, newsletterEmail, emailSent, response) == once
  {
    var once := AfterUnsubscribeAll(records, userId, newsletterEmail, emailSent, response);
    var twice := AfterUnsubscribeAll(once, userId, newsletterEmail, emailSent, response);
    forall k | k in once ensures twice[k] == once[k] {
      if IsTarget(once[k], userId, newsletterEmail) {
        assert once[k] == records[k];
      }
    }
  }

  /** The service over its repository, with the log of messages it sent. */
  class SubscriptionService {
    var records: map<Key, Subscription>
    var outbox: seq<Outbound>

    ghost predicate Valid()
      reads this`records
    {
      KeyedByOwner(records)
    }

    constructor (records: map<Key, Subscription>)
      requires KeyedByOwner(records)
      ensures Valid() && this.records == records && outbox == []
    {
      this.records := records;
      outbox := [];
    }

    /** `saveSubscription`: the looked-up record is updated in place, or a new one is saved; the saved record is returned. */
    method SaveSubscription(userId: string, name: string, newsletterEmail: string,
                            unsubscribeMailTo: Option<string>, unsubscribeHttpUrl: Option<string>)
      returns (saved: Subscription)
      requires Valid()
      modifies this`records
      ensures Valid()
      ensures saved == Upserted(old(records), userId, name, newsletterEmail, unsubscribeMailTo, unsubscribeHttpUrl)
      ensures records == SaveInto(old(records), userId, name, newsletterEmail, unsubscribeMailTo, unsubscribeHttpUrl)
    {
      var key := Key(userId, name);
      if key in records {
        var subscription := records[key];
        subscription := subscription.(status := Active);
        subscription := subscription.(newsletterEmail := newsletterEmail);
        if Truthy(unsubscribeMailTo) {
          subscription := subscription.(unsubscribeMailTo := unsubscribeMailTo);
        }
        if Truthy(unsubscribeHttpUrl) {
          subscription := subscription.(unsubscribeHttpUrl := unsubscribeHttpUrl);
        }
        records := records[key := subscription];
        return subscription;
      }
      saved := Subscription(userId, name, newsletterEmail, Active, unsubscribeMailTo, unsubscribeHttpUrl);
      records := records[key := saved];
    }

    /**
     * `unsubscribe`: the chosen route's message is sent; only when it
     * succeeded is the record saved with status Unsubscribed. A failed send
     * or a missing route throws and leaves the repository as it was.
     */
    method Unsubscribe(subscription: Subscription, emailSent: bool, response: HttpResponse) returns (outcome: Outcome)
      requires Valid()
      modifies this`records, this`outbox
      ensures Valid()
      ensures outcome == UnsubscribeOutcome(subscription, emailSent, response)
      ensures outbox == old(outbox) + Attempt(subscription)
      ensures records == if outcome.Saved? then old(records)[KeyOf(subscription) := outcome.subscription] else old(records)
    {
      var subscription := subscription;
      if Truthy(subscription.unsubscribeMailTo) {
        outbox := outbox + [UnsubscribeEmail(subscription.unsubscribeMailTo.value, subscription.newsletterEmail)];
        if !emailSent {
          return Threw(EmailFailed(subscription.unsubscribeMailTo.value));
        }
      } else if Truthy(subscription.unsubscribeHttpUrl) {
        outbox := outbox + [HttpGet(subscription.unsubscribeHttpUrl.value)];
        if response.status != 200 {
          return Threw(HttpFailed(response.statusText));
        }
      } else {
        return Threw(NoMethodDefined);
      }
      subscription := subscription.(status := Unsubscribed);
      records := records[KeyOf(subscription) := subscription];
      outcome := Saved(subscription);
    }

    /**
     * `unsubscribeAll`: `unsubscribe` is attempted once on each target
     * record, in the order `visited`; a throw is caught and the loop goes
     * on, and the batch itself never fails.
     */
    method UnsubscribeAll(userId: string, newsletterEmail: string, emailSent: Key -> bool, response: Key -> HttpResponse)
      returns (ghost visited: seq<Key>)
      requires Valid()
      modifies this`records, this`outbox
      ensures Valid()
      ensures records == AfterUnsubscribeAll(old(records), userId, newsletterEmail, emailSent, response)
      ensures forall k :: k in visited <==> k in old(records) && IsTarget(old(records)[k], userId, newsletterEmail)
      ensures forall i, j :: 0 <= i < j < |visited| ==> visited[i] != visited[j]
      ensures forall i :: 0 <= i < |visited| ==> visited[i] in old(records)
      ensures outbox == old(outbox) + SendsFor(old(records), visited)
    {
      ghost var records0, outbox0 := records, outbox;
      var found := map k | k in records && IsTarget(records[k], userId, newsletterEmail) :: records[k];
      var todo := found.Keys;
      visited := [];
      while todo != {}
        invariant Valid()
        invariant SplitsKeys(found.Keys, todo, visited)
        invariant records == Handled(records0, found, visited, emailSent, response)
        invariant outbox == outbox0 + SendsFor(found, visited)
        decreases |todo|
      {
        var k :| k in todo;
        var subscription := found[k];
        var _ := Unsubscribe(subscription, emailSent(k), response(k));
        HandledStep(records0, found, visited, k, emailSent, response);
        SendsForStep(outbox0, found, visited, k);
        VisitOneMore(found.Keys, todo, visited, k);
        todo := todo - {k};
        visited := visited + [k];
      }
      HandledAll(records0, found, visited, userId, newsletterEmail, emailSent, response);
      SendsForSame(found, records0, visited);
    }
  }

  lemma HandledStep(records: map<Key, Subscription>, found: map<Key, Subscription>, order: seq<Key>, k: Key,
                    emailSent: Key -> bool, response: Key -> HttpResponse)
    requires k in found && forall i :: 0 <= i < |order| ==> order[i] in found
    ensures var before := Handled(records, found, order, emailSent, response);
      var outcome := UnsubscribeOutcome(found[k], emailSent(k), response(k));
      (if outcome.Saved? then before[KeyOf(found[k]) := outcome.subscription] else before)
        == Handled(records, found, order + [k], emailSent, response)
  {
    assert (order + [k])[..|order|] == order;
  }

  /** The keys still to visit and the keys visited, without repetition, split `keys`. */
  predicate SplitsKeys(keys: set<Key>, todo: set<Key>, visited: seq<Key>)
  {
    && todo <= keys
    && (forall k :: k in keys ==> (k in todo <==> k !in visited))
    && (forall i, j :: 0 <= i < j < |visited| ==> visited[i] != visited[j])
    && (forall i :: 0 <= i < |visited| ==> visited[i] in keys)
  }

  /** Moving one key from the keys to visit to the end of the visited ones keeps the split, and shrinks `todo`. */
  lemma VisitOneMore(keys: set<Key>, todo: set<Key>, visited: seq<Key>, k: Key)
    requires SplitsKeys(keys, todo, visited) && k in todo
    ensures SplitsKeys(keys, todo - {k}, visited + [k])
    ensures |todo - {k}| < |todo|
  {
  }

  /** One more handled record appends its message, if any, to the log. */
  lemma SendsForStep(log: seq<Outbound>, found: map<Key, Subscription>, order: seq<Key>, k: Key)
    requires k in found && forall i :: 0 <= i < |order| ==> order[i] in found
    ensures (log + SendsFor(found, order)) + Attempt(found[k]) == log + SendsFor(found, order + [k])
  {
    assert (order + [k])[..|order|] == order;
  }

  /** Handling every target record, in any order, gives the repository after the batch. */
  lemma HandledAll(records: map<Key, Subscription>, found: map<Key, Subscription>, order: seq<Key>,
                   userId: string, newsletterEmail: string, emailSent: Key -> bool, response: Key -> HttpResponse)
    requires KeyedByOwner(records)
    requires found == map k | k in records && IsTarget(records[k], userId, newsletterEmail) :: records[k]
    requires forall k :: k in order <==> k in found
    ensures Handled(records, found, order, emailSent, response)
      == AfterUnsubscribeAll(records, userId, newsletterEmail, emailSent, response)
  {
    forall i | 0 <= i < |order| ensures order[i] in found && order[i] in records && KeyOf(found[order[i]]) == order[i] {
      assert order[i] in found;
    }
    HandledPointwise(records, found, order, emailSent, response);
  }

  /** The messages only depend on the listed records, which are the same in the query result and in the repository. */
  lemma {:induction false} SendsForSame(found: map<Key, Subscription>, records: map<Key, Subscription>, order: seq<Key>)
    requires forall i :: 0 <= i < |order| ==> order[i] in found && order[i] in records && found[order[i]] == records[order[i]]
    ensures SendsFor(found, order) == SendsFor(records, order)
  {
    if order != [] {
      SendsForSame(found, records, order[..|order| - 1]);
    }
  }
}
