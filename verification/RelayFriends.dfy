/** Friendships and pending friend requests of the message relay. */
module RelayFriends {
  import opened Common
  import opened RelayMail

  const MAX_REQUESTS := 50

  type Pairs = set<(Uid, Uid)>

  ghost function Outgoing(reqs: Pairs, u: Uid): (s: Pairs)
  {
    set p | p in reqs && p.0 == u
  }

  /** Friendship is mutual and never with oneself; of two users at most one has
      asked the other, and not once they are friends; nobody has more than 50
      requests out. */
  ghost predicate Sane(friends: Pairs, reqs: Pairs)
  {
    && (forall a, b :: (a, b) in friends ==> (b, a) in friends && a != b)
    && (forall a, b :: (a, b) in reqs ==> a != b && (b, a) !in reqs && (a, b) !in friends)
    && (forall u :: |Outgoing(reqs, u)| <= MAX_REQUESTS)
  }

  ghost function Both(a: Uid, b: Uid): Pairs { {(a, b), (b, a)} }

  lemma OutgoingShrinks(reqs: Pairs, gone: Pairs, u: Uid)
    ensures |Outgoing(reqs - gone, u)| <= |Outgoing(reqs, u)|
  {
    SubsetSize(Outgoing(reqs - gone, u), Outgoing(reqs, u));
  }

  /** Asking someone who has not asked. */
  lemma AskOk(friends: Pairs, reqs: Pairs, a: Uid, b: Uid)
    requires Sane(friends, reqs) && a != b && (a, b) !in friends && (b, a) !in reqs
    requires |Outgoing(reqs, a)| < MAX_REQUESTS
    ensures Sane(friends, reqs + {(a, b)})
  {
    var reqs' := reqs + {(a, b)};
    forall u ensures |Outgoing(reqs', u)| <= MAX_REQUESTS {
      if u == a {
        assert Outgoing(reqs', u) == Outgoing(reqs, u) + {(a, b)};
      } else {
        assert Outgoing(reqs', u) == Outgoing(reqs, u);
      }
    }
  }

  /** Accepting a pending request. */
  lemma AcceptOk(friends: Pairs, reqs: Pairs, a: Uid, b: Uid)
    requires Sane(friends, reqs) && (b, a) in reqs
    ensures Sane(friends + Both(a, b), reqs - {(b, a)})
  {
    hide Outgoing;
    forall u ensures |Outgoing(reqs - {(b, a)}, u)| <= MAX_REQUESTS {
      OutgoingShrinks(reqs, {(b, a)}, u);
    }
  }

  /** Dropping requests, and friendships on both sides. */
  lemma PartOk(friends: Pairs, reqs: Pairs, a: Uid, b: Uid, gone: Pairs)
    requires Sane(friends, reqs)
    ensures Sane(friends, reqs - gone) && Sane(friends - Both(a, b), reqs - gone)
  {
    hide Outgoing;
    forall u ensures |Outgoing(reqs - gone, u)| <= MAX_REQUESTS {
      OutgoingShrinks(reqs, gone, u);
    }
  }
}
