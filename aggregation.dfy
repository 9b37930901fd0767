/**
 * The recomputation body of `useNotifications`: unseen messages reduced to
 * one per connection, every credential offer, the proofs still worth
 * showing, and the credentials with an unacknowledged revocation, merged
 * and sorted newest first.
 */
module Aggregation {
  import opened Records
  import opened Sequences
  import opened FeedOrder

  // ---------------------------------------------------------------------
  // Unseen messages, one per connection

  /** A message is unseen unless its `seen` flag is true. */
  predicate IsUnseen(m: Message) {
    m.seen != Some(true)
  }

  /** `unseenMessages`: the unseen messages, in their order. */
  function UnseenMessages(messages: seq<Message>): (r: seq<Message>)
    ensures forall m :: m in r <==> m in messages && IsUnseen(m)
    ensures IsSubsequence(r, messages)
  {
    FilterIsSubsequence(messages, IsUnseen);
    Filter(messages, IsUnseen)
  }

  function ConnectionIdsOf(ms: seq<Message>): (ids: seq<string>)
    ensures |ids| == |ms|
  {
    seq(|ms|, k requires 0 <= k < |ms| => ms[k].connectionId)
  }

  function ConnectionIdSet(ms: seq<Message>): set<string> {
    set m | m in ms :: m.connectionId
  }

  /**
   * The messages the per-connection loop pushes while it walks `ms`, when
   * the connections in `contacts` have already been recorded: a message is
   * pushed, and its connection recorded, when its connection is not yet
   * recorded.
   */
  function OnePerConnection(ms: seq<Message>, contacts: seq<string>): seq<Message> {
    if ms == [] then []
    else if ms[0].connectionId in contacts then OnePerConnection(ms[1..], contacts)
    else [ms[0]] + OnePerConnection(ms[1..], contacts + [ms[0].connectionId])
  }

  /**
   * `messagesToShow` for the unseen messages `ms`: an order-preserving
   * subsequence of `ms` with pairwise distinct connections that covers every
   * connection of `ms`.
   */
  function FirstPerConnection(ms: seq<Message>): (r: seq<Message>)
    ensures IsSubsequence(r, ms)
    ensures forall i, j :: 0 <= i < j < |r| ==> r[i].connectionId != r[j].connectionId
    ensures ConnectionIdSet(r) == ConnectionIdSet(ms)
  {
    OnePerConnectionIsSubsequence(ms, []);
    OnePerConnectionIds(ms, []);
    assert (set c: string | c in []) == {};
    OnePerConnection(ms, [])
  }

  /** The `forEach` loop that fills `contactsWithUnseenMessages` and `messagesToShow`. */
  method MessagesToShow(unseen: seq<Message>) returns (messagesToShow: seq<Message>)
    ensures messagesToShow == FirstPerConnection(unseen)
  {
    var contactsWithUnseenMessages: seq<string> := [];
    messagesToShow := [];
    for i := 0 to |unseen|
      invariant contactsWithUnseenMessages == ConnectionIdsOf(messagesToShow)
      invariant messagesToShow + OnePerConnection(unseen[i..], contactsWithUnseenMessages) == OnePerConnection(unseen, [])
    {
      var msg := unseen[i];
      assert unseen[i..][1..] == unseen[i + 1..];
      if msg.connectionId !in contactsWithUnseenMessages {
        contactsWithUnseenMessages := contactsWithUnseenMessages + [msg.connectionId];
        messagesToShow := messagesToShow + [msg];
      }
    }
  }

  lemma {:induction false} OnePerConnectionIsSubsequence(ms: seq<Message>, contacts: seq<string>)
    ensures IsSubsequence(OnePerConnection(ms, contacts), ms)
  {
    if ms != [] {
      var r := OnePerConnection(ms, contacts);
      if ms[0].connectionId in contacts {
        OnePerConnectionIsSubsequence(ms[1..], contacts);
        SubsequenceOfTail(r, ms);
      } else {
        OnePerConnectionIsSubsequence(ms[1..], contacts + [ms[0].connectionId]);
        assert r[1..] == OnePerConnection(ms[1..], contacts + [ms[0].connectionId]);
      }
    }
  }

  /**
   * The loop pushes exactly one message for each connection of `ms` not
   * already recorded, and none for a recorded one.
   */
  lemma {:induction false} OnePerConnectionIds(ms: seq<Message>, contacts: seq<string>)
    ensures var r := OnePerConnection(ms, contacts);
      && (forall i, j :: 0 <= i < j < |r| ==> r[i].connectionId != r[j].connectionId)
      && ConnectionIdSet(r) == ConnectionIdSet(ms) - set c | c in contacts
  {
    if ms != [] {
      var x := ms[0];
      assert ms == [x] + ms[1..];
      assert ConnectionIdSet(ms) == {x.connectionId} + ConnectionIdSet(ms[1..]);
      if x.connectionId in contacts {
        OnePerConnectionIds(ms[1..], contacts);
      } else {
        var more := contacts + [x.connectionId];
        OnePerConnectionIds(ms[1..], more);
        var tail := OnePerConnection(ms[1..], more);
        var r := [x] + tail;
        assert ConnectionIdSet(r) == {x.connectionId} + ConnectionIdSet(tail);
        assert forall k :: 0 <= k < |tail| ==> tail[k] in tail;
        assert forall k :: 0 <= k < |tail| ==> tail[k].connectionId in ConnectionIdSet(tail);
      }
    }
  }

  /** Connections whose messages are pairwise distinct have as many connections as messages. */
  lemma {:induction false} DistinctConnectionsCount(r: seq<Message>)
    requires forall i, j :: 0 <= i < j < |r| ==> r[i].connectionId != r[j].connectionId
    ensures |ConnectionIdSet(r)| == |r|
  {
    if r != [] {
      DistinctConnectionsCount(r[1..]);
      assert r == [r[0]] + r[1..];
      assert ConnectionIdSet(r) == {r[0].connectionId} + ConnectionIdSet(r[1..]);
      assert r[0].connectionId !in ConnectionIdSet(r[1..]);
    }
  }

  /**
   * `messagesToShow` is an order-preserving subsequence of the unseen
   * messages holding exactly one message per distinct connection: as many
   * messages as there are distinct connections.
   */
  lemma FirstPerConnectionOnePerContact(unseen: seq<Message>)
    ensures var r := FirstPerConnection(unseen);
      && IsSubsequence(r, unseen)
      && (forall i, j :: 0 <= i < j < |r| ==> r[i].connectionId != r[j].connectionId)
      && ConnectionIdSet(r) == ConnectionIdSet(unseen)
      && |r| == |ConnectionIdSet(unseen)|
  {
    OnePerConnectionIsSubsequence(unseen, []);
    OnePerConnectionIds(unseen, []);
    assert (set c: string | c in []) == {};
    DistinctConnectionsCount(FirstPerConnection(unseen));
  }

  /**
   * `messages[i]` is unseen and no unseen message before it comes from the
   * same connection. Seen messages do not count: they were filtered out
   * before the per-connection loop ran.
   */
  ghost predicate IsFirstUnseenAt(messages: seq<Message>, i: int)
    requires 0 <= i < |messages|
  {
    && IsUnseen(messages[i])
    && forall j :: 0 <= j < i && IsUnseen(messages[j]) ==> messages[j].connectionId != messages[i].connectionId
  }

  /** `m` is the first unseen message of its connection somewhere in `messages`. */
  ghost predicate IsFirstUnseen(messages: seq<Message>, m: Message) {
    exists i :: 0 <= i < |messages| && messages[i] == m && IsFirstUnseenAt(messages, i)
  }

  /**
   * Which messages the filter-then-loop keeps, with `contacts` recorded
   * beforehand: exactly the first unseen message of each connection not in
   * `contacts`, which is the first in input order, not the newest.
   */
  lemma {:induction false} OnePerConnectionOfUnseen(messages: seq<Message>, contacts: seq<string>, m: Message)
    ensures m in OnePerConnection(UnseenMessages(messages), contacts) <==>
      m.connectionId !in contacts && IsFirstUnseen(messages, m)
  {
    if messages == [] {
      assert !IsFirstUnseen(messages, m);
    } else {
      var x, rest := messages[0], messages[1..];
      var u := UnseenMessages(rest);
      var more := if IsUnseen(x) && x.connectionId !in contacts then contacts + [x.connectionId] else contacts;
      OnePerConnectionOfUnseen(rest, more, m);
      IsFirstUnseenCons(messages, m);
      UnseenCons(messages);
      var r := OnePerConnection(UnseenMessages(messages), contacts);
      var tail := OnePerConnection(u, more);
      if IsUnseen(x) {
        assert ([x] + u)[0] == x;
        assert ([x] + u)[1..] == u;
        if x.connectionId in contacts {
          assert r == tail;
        } else {
          assert r == [x] + tail;
        }
      } else {
        assert UnseenMessages(messages) == [] + u == u;
      }
    }
  }

  lemma UnseenCons(messages: seq<Message>)
    requires messages != []
    ensures UnseenMessages(messages)
         == (if IsUnseen(messages[0]) then [messages[0]] else []) + UnseenMessages(messages[1..])
  {
  }

  /** Whether `m` is a first unseen message, decided by looking at the head of `messages` first. */
  lemma IsFirstUnseenCons(messages: seq<Message>, m: Message)
    requires messages != []
    ensures var x := messages[0];
      IsFirstUnseen(messages, m) <==>
        (m == x && IsUnseen(x))
        || (IsFirstUnseen(messages[1..], m) && !(IsUnseen(x) && x.connectionId == m.connectionId))
  {
  }


  // ---------------------------------------------------------------------
  // Revocations and proofs

  /** A credential has a revocation notification and its `revoked_seen` is null or undefined. */
  predicate IsRevocationPending(c: Credential) {
    c.hasRevocationNotification && c.revokedSeen == None
  }

  /** `revoked`: the Done credentials whose revocation is pending, in their order. */
  function PendingRevocations(credsDone: seq<Credential>): (r: seq<Credential>)
    ensures forall c :: c in r <==> c in credsDone && IsRevocationPending(c)
    ensures IsSubsequence(r, credsDone)
  {
    FilterIsSubsequence(credsDone, IsRevocationPending);
    Filter(credsDone, IsRevocationPending)
  }

  /**
   * A proof is shown while it is not in a terminal state, and once terminal
   * only when it has a verification result and its details are not marked seen.
   */
  predicate IsProofShown(p: Proof) {
    || p.state !in [ProofState.Done, ProofState.PresentationReceived]
    || (p.isVerified.Some? && p.detailsSeen != Some(true))
  }

  /** `proofs`: the non-attestation proofs still worth showing, in their order. */
  function ShownProofs(proofs: seq<Proof>): (r: seq<Proof>)
    ensures forall p :: p in r <==> p in proofs && IsProofShown(p)
    ensures IsSubsequence(r, proofs)
  {
    FilterIsSubsequence(proofs, IsProofShown);
    Filter(proofs, IsProofShown)
  }

  // ---------------------------------------------------------------------
  // Merge and sort

  function MessageItems(ms: seq<Message>): (r: seq<Notification>)
    ensures |r| == |ms|
    ensures forall x :: x in r <==> x.MessageItem? && x.message in ms
  {
    if ms == [] then [] else [MessageItem(ms[0])] + MessageItems(ms[1..])
  }

  function CredentialItems(cs: seq<Credential>): (r: seq<Notification>)
    ensures |r| == |cs|
    ensures forall x :: x in r <==> x.CredentialItem? && x.credential in cs
  {
    if cs == [] then [] else [CredentialItem(cs[0])] + CredentialItems(cs[1..])
  }

  function ProofItems(ps: seq<Proof>): (r: seq<Notification>)
    ensures |r| == |ps|
    ensures forall x :: x in r <==> x.ProofItem? && x.proof in ps
  {
    if ps == [] then [] else [ProofItem(ps[0])] + ProofItems(ps[1..])
  }

  /**
   * `[...messagesToShow, ...offers, ...proofs, ...revoked]`, before sorting:
   * every item of the four lists, tagged with its kind, and nothing else.
   */
  function Merged(messages: seq<Message>, offers: seq<Credential>, credsDone: seq<Credential>,
                  nonAttestationProofs: seq<Proof>): (r: seq<Notification>)
    ensures |r| == |FirstPerConnection(UnseenMessages(messages))| + |offers|
                 + |ShownProofs(nonAttestationProofs)| + |PendingRevocations(credsDone)|
    ensures forall m :: MessageItem(m) in r <==> m in FirstPerConnection(UnseenMessages(messages))
    ensures forall c :: CredentialItem(c) in r <==> c in offers || c in PendingRevocations(credsDone)
    ensures forall p :: ProofItem(p) in r <==> p in ShownProofs(nonAttestationProofs)
  {
    MessageItems(FirstPerConnection(UnseenMessages(messages)))
    + CredentialItems(offers)
    + ProofItems(ShownProofs(nonAttestationProofs))
    + CredentialItems(PendingRevocations(credsDone))
  }

  /**
   * The feed: the merge sorted newest first. It holds every merged item as
   * often as the merge does, and nothing else.
   */
  function Feed(messages: seq<Message>, offers: seq<Credential>, credsDone: seq<Credential>,
                nonAttestationProofs: seq<Proof>): (r: seq<Notification>)
    ensures multiset(r) == multiset(Merged(messages, offers, credsDone, nonAttestationProofs))
    ensures IsNewestFirst(r)
  {
    SortNewestFirst(Merged(messages, offers, credsDone, nonAttestationProofs))
  }

  /** Items with equal `createdAt` keep their order from the merge (stable sort). */
  lemma FeedKeepsTies(messages: seq<Message>, offers: seq<Credential>, credsDone: seq<Credential>,
                      nonAttestationProofs: seq<Proof>, t: int)
    ensures CreatedAtTime(Feed(messages, offers, credsDone, nonAttestationProofs), t)
         == CreatedAtTime(Merged(messages, offers, credsDone, nonAttestationProofs), t)
  {
    SortIsStable(Merged(messages, offers, credsDone, nonAttestationProofs), t);
  }

  /** The sort neither adds nor drops an item. */
  lemma InFeedIffMerged(messages: seq<Message>, offers: seq<Credential>, credsDone: seq<Credential>,
                        nonAttestationProofs: seq<Proof>, x: Notification)
    ensures x in Feed(messages, offers, credsDone, nonAttestationProofs)
        <==> x in Merged(messages, offers, credsDone, nonAttestationProofs)
  {
    var feed := Feed(messages, offers, credsDone, nonAttestationProofs);
    var merged := Merged(messages, offers, credsDone, nonAttestationProofs);
    assert x in feed <==> x in multiset(feed);
    assert x in merged <==> x in multiset(merged);
  }

  /** A message is in the feed exactly when it is the first unseen message of its connection. */
  lemma MessageInFeed(messages: seq<Message>, offers: seq<Credential>, credsDone: seq<Credential>,
                      nonAttestationProofs: seq<Proof>, m: Message)
    ensures MessageItem(m) in Feed(messages, offers, credsDone, nonAttestationProofs) <==>
      IsFirstUnseen(messages, m)
  {
    InFeedIffMerged(messages, offers, credsDone, nonAttestationProofs, MessageItem(m));
    OnePerConnectionOfUnseen(messages, [], m);
  }

  /**
   * A credential is in the feed exactly when it is an offer, or a Done
   * credential whose revocation is not yet acknowledged.
   */
  lemma CredentialInFeed(messages: seq<Message>, offers: seq<Credential>, credsDone: seq<Credential>,
                         nonAttestationProofs: seq<Proof>, c: Credential)
    ensures CredentialItem(c) in Feed(messages, offers, credsDone, nonAttestationProofs) <==>
      c in offers || (c in credsDone && IsRevocationPending(c))
  {
    InFeedIffMerged(messages, offers, credsDone, nonAttestationProofs, CredentialItem(c));
  }

  /** A non-attestation proof is in the feed exactly when it is still worth showing. */
  lemma ProofInFeed(messages: seq<Message>, offers: seq<Credential>, credsDone: seq<Credential>,
                    nonAttestationProofs: seq<Proof>, p: Proof)
    ensures ProofItem(p) in Feed(messages, offers, credsDone, nonAttestationProofs) <==>
      p in nonAttestationProofs && IsProofShown(p)
  {
    InFeedIffMerged(messages, offers, credsDone, nonAttestationProofs, ProofItem(p));
  }

  // ---------------------------------------------------------------------
  // Scenarios

  /**
   * Of two unseen messages from one connection only the first is shown,
   * even when the second is the newer one.
   */
  lemma FirstEncounteredWins(first: Message, second: Message)
    requires IsUnseen(first) && IsUnseen(second)
    requires first.connectionId == second.connectionId
    ensures Feed([first, second], [], [], []) == [MessageItem(first)]
  {
    var c := first.connectionId;
    assert [first, second][1..] == [second];
    assert [second][1..] == [];
    assert UnseenMessages([first, second]) == [first, second];
    assert OnePerConnection([second], [c]) == OnePerConnection([], [c]) == [];
    assert FirstPerConnection([first, second]) == [first] + OnePerConnection([second], [] + [c]);
    assert MessageItems([first]) == [MessageItem(first)] + MessageItems([first][1..]);
    assert [first][1..] == [];
    assert ShownProofs([]) == [] && PendingRevocations([]) == [];
    assert Merged([first, second], [], [], []) == [MessageItem(first)] + [] + [] + [] + [];
    assert SortNewestFirst([MessageItem(first)]) == Insert(MessageItem(first), SortNewestFirst([]));
  }

  /**
   * A Done credential with a revocation notification is shown until its
   * `revoked_seen` flag is set, to any value, false included.
   */
  lemma RevocationAcknowledged(c: Credential, flag: bool)
    requires c.hasRevocationNotification && c.revokedSeen == None
    ensures CredentialItem(c) in Feed([], [], [c], [])
    ensures var acknowledged := c.(revokedSeen := Some(flag));
      CredentialItem(acknowledged) !in Feed([], [], [acknowledged], [])
  {
    CredentialInFeed([], [], [c], [], c);
    var acknowledged := c.(revokedSeen := Some(flag));
    CredentialInFeed([], [], [acknowledged], [], acknowledged);
  }
}
