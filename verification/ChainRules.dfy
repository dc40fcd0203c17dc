/** What a well-formed history is, entry by entry, and the submission gate that keeps it so. */
module ChainRules {
  import opened ChainModel

  function RegisteredTxids(h: Hist): set<Txid> {
    match h
    case Empty => {}
    case Snoc(init, last) => RegisteredTxids(init) + (if last.Registered? then {last.txid} else {})
  }

  function SettledTxids(h: Hist): set<Txid> {
    match h
    case Empty => {}
    case Snoc(init, last) => SettledTxids(init) + (if last.Settled? then {last.txid} else {})
  }

  /** The registration a settlement names, looked up among its ancestors. */
  function RegistrationOf(h: Hist, e: Entry): Option<Entry>
    requires e.Settled?
  {
    var found := Find(h, e.registration);
    if found.Some? && found.value.Registered? then found else None
  }

  /** The intent that settlement `e`, standing on `h`, fulfills. */
  function FulfilledBy(h: Hist, e: Entry): Option<Digest> {
    if e.Settled? && e.outcome.Committed? && RegistrationOf(h, e).Some?
    then RegistrationOf(h, e).value.fulfills
    else None
  }

  function Fulfilled(h: Hist): set<Digest> {
    match h
    case Empty => {}
    case Snoc(init, last) =>
      Fulfilled(init) + (if FulfilledBy(init, last).Some? then {FulfilledBy(init, last).value} else {})
  }

  predicate ReferentOk(h: Hist, fulfills: Option<Digest>) {
    fulfills.None? || (Find(h, fulfills.value).Some? && Find(h, fulfills.value).value.Intent?)
  }

  /** The entry-class rules for `e` with strict ancestors `h`. */
  predicate EntryOk(h: Hist, e: Entry) {
    match e
    case Genesis(_) => true
    case Intent(_) => true
    case Registered(txid, _, fulfills) => txid !in RegisteredTxids(h) && ReferentOk(h, fulfills)
    case Settled(txid, _, _) =>
      && RegistrationOf(h, e).Some?
      && RegistrationOf(h, e).value.txid == txid
      && txid !in SettledTxids(h)
      && (FulfilledBy(h, e).Some? ==> FulfilledBy(h, e).value !in Fulfilled(h))
  }

  predicate Clean(h: Hist) {
    h.Snoc? ==> Clean(h.init) && EntryOk(h.init, h.last)
  }

  function PendingTxids(h: Hist): set<Txid> {
    RegisteredTxids(h) - SettledTxids(h)
  }

  /** `_require_admissible_fulfills`. */
  predicate Gate(h: Hist, fulfills: Option<Digest>) {
    ReferentOk(h, fulfills) && (fulfills.Some? ==> fulfills.value !in Fulfilled(h))
  }

  /** One complete transaction appended to `h`. */
  function WithTransaction(h: Hist, reg: Entry, outcome: Outcome): Hist
    requires reg.Registered?
  {
    Snoc(Snoc(h, reg), Settled(reg.txid, NextDigest(h, reg), outcome))
  }

  // ---- counting entries of one transaction ----

  function Registrations(h: Hist, t: Txid): seq<Digest> {
    match h
    case Empty => []
    case Snoc(init, last) =>
      Registrations(init, t) + (if last.Registered? && last.txid == t then [NextDigest(init, last)] else [])
  }

  function Settlements(h: Hist, t: Txid): seq<Digest> {
    match h
    case Empty => []
    case Snoc(init, last) =>
      Settlements(init, t) + (if last.Settled? && last.txid == t then [NextDigest(init, last)] else [])
  }

  /** A clean history registers and settles each transaction at most once, and settles only what it
      registered.  */
  lemma {:induction false} AtMostOnce(h: Hist, t: Txid)
    requires Clean(h)
    ensures |Registrations(h, t)| == if t in RegisteredTxids(h) then 1 else 0
    ensures |Settlements(h, t)| == if t in SettledTxids(h) then 1 else 0
    ensures SettledTxids(h) <= RegisteredTxids(h)
  {
    if h.Snoc? {
      AtMostOnce(h.init, t);
      if h.last.Settled? {
        FoundRegistrationCounts(h.init, h.last.registration);
      }
    }
  }

  lemma {:induction false} FoundRegistrationCounts(h: Hist, d: Digest)
    requires Find(h, d).Some? && Find(h, d).value.Registered?
    ensures Find(h, d).value.txid in RegisteredTxids(h)
  {
    if d != NextDigest(h.init, h.last) {
      FoundRegistrationCounts(h.init, d);
    }
  }

  /** The lists hold exactly the digests under which the entries are found. */
  lemma {:induction false} ListedAreFound(h: Hist, t: Txid, g: Digest)
    ensures g in Registrations(h, t) <==> Find(h, g).Some? && Find(h, g).value.Registered? && Find(h, g).value.txid == t
    ensures g in Settlements(h, t) <==> Find(h, g).Some? && Find(h, g).value.Settled? && Find(h, g).value.txid == t
  {
    if h.Snoc? {
      ListedAreFound(h.init, t, g);
      if Find(h.init, g).Some? {
        FindExtends(h.init, h.last, g);
      }
    }
  }

  /** In a clean history a transaction has one settlement. */
  lemma OneSettlement(h: Hist, a: Digest, b: Digest)
    requires Clean(h) && Find(h, a).Some? && Find(h, a).value.Settled? && Find(h, b).Some? && Find(h, b).value.Settled?
    requires Find(h, a).value.txid == Find(h, b).value.txid
    ensures a == b
  {
    var t := Find(h, a).value.txid;
    AtMostOnce(h, t);
    ListedAreFound(h, t, a);
    ListedAreFound(h, t, b);
  }

  /** In a clean history a settlement names a registration of its own transaction. */
  lemma {:induction false} SettlementNamesRegistration(h: Hist, g: Digest)
    requires Clean(h) && Find(h, g).Some? && Find(h, g).value.Settled?
    ensures var e := Find(h, g).value;
      Find(h, e.registration).Some? && Find(h, e.registration).value.Registered? && Find(h, e.registration).value.txid == e.txid
  {
    if g != NextDigest(h.init, h.last) {
      SettlementNamesRegistration(h.init, g);
    }
    FindExtends(h.init, h.last, Find(h, g).value.registration);
  }

  /** The settlement found under `g` commits a transaction that fulfills `d`. */
  predicate CommitsFulfilling(h: Hist, g: Digest, d: Digest) {
    && Find(h, g).Some? && Find(h, g).value.Settled? && Find(h, g).value.outcome == Committed
    && var reg := Find(h, Find(h, g).value.registration);
    && reg.Some? && reg.value.Registered? && reg.value.fulfills == Some(d)
  }

  /** What a clean history counts as fulfilled is what some committing settlement in it fulfills. */
  lemma {:induction false} FulfilledAreCommitted(h: Hist, d: Digest)
    requires Clean(h)
    ensures d in Fulfilled(h) <==> exists g :: CommitsFulfilling(h, g, d)
  {
    if h.Snoc? {
      FulfilledAreCommitted(h.init, d);
      forall g | g != NextDigest(h.init, h.last) ensures CommitsFulfilling(h, g, d) <==> CommitsFulfilling(h.init, g, d) {
        if Find(h.init, g).Some? && Find(h.init, g).value.Settled? {
          SettlementNamesRegistration(h.init, g);
          FindExtends(h.init, h.last, Find(h.init, g).value.registration);
        }
      }
      if h.last.Settled? {
        FindExtends(h.init, h.last, h.last.registration);
      }
      var tip := NextDigest(h.init, h.last);
      assert CommitsFulfilling(h, tip, d) <==> FulfilledBy(h.init, h.last) == Some(d);
      NextDigestIsFresh(h.init, h.last);
      FindMatchesDigests(h.init, tip);
      if exists g :: CommitsFulfilling(h.init, g, d) {
        var g :| CommitsFulfilling(h.init, g, d);
        assert CommitsFulfilling(h, g, d);
      }
    }
  }

  /** With nothing pending and a fresh txid, the gate is exact: it accepts a `fulfills` precisely
      when the transaction could be registered and committed without spoiling the chain, and the
      referent half alone decides whether it could be registered and rolled back.  */
  lemma GateIsExact(h: Hist, reg: Entry)
    requires Clean(h) && reg.Registered? && reg.txid !in RegisteredTxids(h)
    ensures Clean(Snoc(h, reg)) <==> ReferentOk(h, reg.fulfills)
    ensures Clean(WithTransaction(h, reg, RolledBack)) <==> ReferentOk(h, reg.fulfills)
    ensures Clean(WithTransaction(h, reg, Committed)) <==> Gate(h, reg.fulfills)
    ensures PendingTxids(Snoc(h, reg)) == PendingTxids(h) + {reg.txid}
    ensures forall o :: PendingTxids(WithTransaction(h, reg, o)) == PendingTxids(h)
  {
    AtMostOnce(h, reg.txid);
    assert reg.txid !in SettledTxids(h);
    assert Find(Snoc(h, reg), NextDigest(h, reg)) == Some(reg);
  }

  /** Intents never disturb a clean history or what is pending in it. */
  lemma IntentKeepsClean(h: Hist, e: Entry)
    requires Clean(h) && (e.Intent? || e.Genesis?)
    ensures Clean(Snoc(h, e)) && PendingTxids(Snoc(h, e)) == PendingTxids(h)
  {
  }
}
