/** Chain entries, envelopes, digests and histories.

    A chain file is either the canonical bytes of one envelope or some other bytes.
    SHA-256 is the constructor Sha256: distinct contents have distinct digests and
    nothing else is known about it.  */
module ChainModel {

  datatype Option<+T> = None | Some(value: T)

  type Txid = string

  datatype Outcome = Committed | RolledBack

  /** `body` stands for the intent digest, consumer tag and the two surfaces. */
  datatype Entry =
    | Genesis(payload: string)
    | Registered(txid: Txid, body: string, fulfills: Option<Digest>)
    | Settled(txid: Txid, registration: Digest, outcome: Outcome)
    | Intent(payload: string)

  datatype Content =
    | Envelope(previous: Option<Digest>, entry: Entry)
    | Raw(bytes: nat)

  datatype Digest = Sha256(content: Content)

  /** Exactly the contents `decode_entry` accepts: a genesis and only a genesis has no predecessor. */
  predicate Decodes(c: Content) {
    c.Envelope? && (c.previous.None? <==> c.entry.Genesis?)
  }

  /** A linear history, last entry outermost. */
  datatype Hist = Empty | Snoc(init: Hist, last: Entry)

  function Tip(h: Hist): Option<Digest> {
    match h
    case Empty => None
    case Snoc(init, last) => Some(Sha256(Envelope(Tip(init), last)))
  }

  /** The digest under which `e` is published when appended to `h`. */
  function NextDigest(h: Hist, e: Entry): Digest {
    Sha256(Envelope(Tip(h), e))
  }

  function Digests(h: Hist): set<Digest> {
    match h
    case Empty => {}
    case Snoc(init, last) => Digests(init) + {NextDigest(init, last)}
  }

  /** `dict(entries).get(digest)`. */
  function Find(h: Hist, d: Digest): Option<Entry> {
    match h
    case Empty => None
    case Snoc(init, last) => if d == NextDigest(init, last) then Some(last) else Find(init, d)
  }

  /** The genesis comes first and only first. */
  predicate Rooted(h: Hist) {
    match h
    case Empty => true
    case Snoc(init, last) => Rooted(init) && (last.Genesis? <==> init.Empty?)
  }

  // ---- facts about histories ----

  lemma {:induction false} TipInjective(a: Hist, b: Hist)
    requires Tip(a) == Tip(b)
    ensures a == b
  {
    if a.Snoc? && b.Snoc? {
      TipInjective(a.init, b.init);
    }
  }

  /** Every digest of a history names the envelope of one of its prefixes. */
  lemma {:induction false} FindMatchesDigests(h: Hist, d: Digest)
    ensures d in Digests(h) <==> Find(h, d).Some?
    ensures d in Digests(h) ==> d.content.Envelope? && d.content.entry == Find(h, d).value
  {
    if h.Snoc? {
      FindMatchesDigests(h.init, d);
    }
  }

  function Length(h: Hist): nat {
    if h.Empty? then 0 else 1 + Length(h.init)
  }

  /** The number of ancestors a digest commits to. */
  function Height(d: Option<Digest>): nat
  {
    match d
    case None => 0
    case Some(Sha256(Envelope(previous, _))) => 1 + Height(previous)
    case Some(Sha256(Raw(_))) => 1
  }

  lemma {:induction false} HeightOfTip(h: Hist)
    ensures Height(Tip(h)) == Length(h)
  {
    if h.Snoc? {
      HeightOfTip(h.init);
    }
  }

  lemma {:induction false} DigestsAreShallow(h: Hist, d: Digest)
    requires d in Digests(h)
    ensures Height(Some(d)) <= Length(h)
  {
    HeightOfTip(h);
    if d != NextDigest(h.init, h.last) {
      DigestsAreShallow(h.init, d);
    }
  }

  /** Nothing in a history links from its tip, so a new entry always gets a new name. */
  lemma NextDigestIsFresh(h: Hist, e: Entry)
    ensures NextDigest(h, e) !in Digests(h)
  {
    HeightOfTip(Snoc(h, e));
    if NextDigest(h, e) in Digests(h) {
      DigestsAreShallow(h, NextDigest(h, e));
    }
  }

  /** Appending hides nothing that was there. */
  lemma FindExtends(h: Hist, e: Entry, d: Digest)
    requires Find(h, d).Some?
    ensures Find(Snoc(h, e), d) == Find(h, d)
  {
    FindMatchesDigests(h, d);
    NextDigestIsFresh(h, e);
  }

  /** A history holds the predecessor of everything it holds. */
  lemma {:induction false} PredecessorIsPresent(h: Hist, d: Digest)
    requires d in Digests(h)
    ensures d.content.Envelope?
    ensures d.content.previous.Some? ==> d.content.previous.value in Digests(h)
  {
    if d in Digests(h.init) {
      PredecessorIsPresent(h.init, d);
    } else if h.init.Snoc? {
      assert d.content.previous == Some(NextDigest(h.init.init, h.init.last));
    }
  }

  lemma {:induction false} DigestsDetermine(a: Hist, b: Hist)
    requires Digests(a) == Digests(b)
    ensures a == b
  {
    if a.Snoc? && b.Snoc? {
      var da, db := NextDigest(a.init, a.last), NextDigest(b.init, b.last);
      DigestsAreShallow(b, da);
      DigestsAreShallow(a, db);
      HeightOfTip(a);
      HeightOfTip(b);
      if da != db {
        DigestsAreShallow(b.init, da);
        assert false;
      }
      TipInjective(a, b);
    }
  }
}
