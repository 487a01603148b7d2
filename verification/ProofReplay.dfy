/** DPoP proof checking (RFC 9449) with its self-purging replay map. */
module ProofReplay {
  import opened Common

  const WINDOW := 300.0

  /** The cap the source passes to every purge. */
  const REPLAY_CACHE_MAX := 10_000

  type Jti = string

  // ----- what is presented -----

  /** The `iat` claim: a usable number; a number that is a bool, not finite or too large for a
      float; or not a number at all. */
  datatype Iat = Number(at: real) | Unusable | NotNumber

  /** A decoded proof. `jkt` is the thumbprint of its header key when that is a public P-256 key,
      `htu` the path of its URI, `authentic` whether the signature verifies. */
  datatype Proof = Proof(typ: string, alg: string, jkt: Option<string>, htm: Option<string>, htu: Option<string>,
                         ath: Option<string>, iat: Iat, jti: Option<Jti>, authentic: bool)

  datatype Presented = Missing | Undecodable | Decoded(proof: Proof)

  datatype Request = Request(verb: string, path: string, basePath: string, tokenHash: string, jkt: string)

  datatype Reason =
    | MissingProof | MalformedProof
    | WrongTyp | WrongAlg | WrongKey
    | MethodMismatch | UriMismatch | TokenHashMismatch
    | MalformedClaims | StaleProof | ReplayedProof
    | BadSignature

  function StripSlashes(s: string): string
    decreases |s|
  {
    if s != "" && s[0] == '/' then StripSlashes(s[1..])
    else if s != "" && s[|s| - 1] == '/' then StripSlashes(s[..|s| - 1])
    else s
  }

  /** dpop.strip_hosting_prefix. */
  function StripHostingPrefix(path: string, basePath: string): string
  {
    var base := "/" + StripSlashes(basePath);
    if |base| == 1 then path
    else if path == base then ""
    else if base + "/" <= path then path[|base|..]
    else path
  }

  function HeaderReason(p: Proof, jkt: string): Option<Reason>
  {
    if p.typ != "dpop+jwt" then Some(WrongTyp)
    else if p.alg != "ES256" then Some(WrongAlg)
    else if p.jkt != Some(jkt) then Some(WrongKey)
    else None
  }

  function ClaimReason(p: Proof, req: Request): Option<Reason>
  {
    if p.htm != Some(req.verb) then Some(MethodMismatch)
    else if p.htu.None? || (p.htu.value != req.path && StripHostingPrefix(p.htu.value, req.basePath) != req.path)
      then Some(UriMismatch)
    else if p.ath != Some(req.tokenHash) then Some(TokenHashMismatch)
    else None
  }

  predicate Fresh(iat: Iat, now: real) { iat.Number? && -WINDOW <= now - iat.at <= WINDOW }

  function FreshnessReason(p: Proof, now: real, es: seq<Entry>): Option<Reason>
  {
    if p.iat.NotNumber? || p.jti.None? then Some(MalformedClaims)
    else if !Fresh(p.iat, now) then Some(StaleProof)
    else if Has(es, p.jti.value) then Some(ReplayedProof)
    else None
  }

  /** dpop.verify_proof: None is success. */
  function Judge(presented: Presented, req: Request, now: real, es: seq<Entry>): Option<Reason>
  {
    match presented
    case Missing => Some(MissingProof)
    case Undecodable => Some(MalformedProof)
    case Decoded(p) =>
      if HeaderReason(p, req.jkt).Some? then HeaderReason(p, req.jkt)
      else if ClaimReason(p, req).Some? then ClaimReason(p, req)
      else if FreshnessReason(p, now, es).Some? then FreshnessReason(p, now, es)
      else if !p.authentic then Some(BadSignature)
      else None
  }

  /** Everything but the clock and the map: the proof is authentic, signed by the bound key, names
      this request and this token, and has a date and an id. */
  predicate Acceptable(presented: Presented, req: Request)
  {
    && presented.Decoded?
    && var p := presented.proof;
    && p.typ == "dpop+jwt" && p.alg == "ES256" && p.jkt == Some(req.jkt)
    && p.htm == Some(req.verb) && p.ath == Some(req.tokenHash)
    && p.htu.Some? && req.path in {p.htu.value, StripHostingPrefix(p.htu.value, req.basePath)}
    && p.iat.Number? && p.jti.Some? && p.authentic
  }

  /** What can be held against a decoded proof, in the order it is looked at. */
  ghost function Objections(p: Proof, req: Request, now: real, es: seq<Entry>): (os: seq<(bool, Reason)>)
    ensures |os| == 10
  {
    [(p.typ != "dpop+jwt", WrongTyp),
     (p.alg != "ES256", WrongAlg),
     (p.jkt != Some(req.jkt), WrongKey),
     (p.htm != Some(req.verb), MethodMismatch),
     (p.htu !in {Some(req.path)} && (p.htu.None? || StripHostingPrefix(p.htu.value, req.basePath) != req.path), UriMismatch),
     (p.ath != Some(req.tokenHash), TokenHashMismatch),
     (p.iat.NotNumber? || p.jti.None?, MalformedClaims),
     (!(p.iat.Number? && now - 300.0 <= p.iat.at <= now + 300.0), StaleProof),
     (p.jti.Some? && p.jti.value in (set i | 0 <= i < |es| :: es[i].jti), ReplayedProof),
     (!p.authentic, BadSignature)]
  }

  /** The reason given is the first objection, and a proof without any wins. */
  lemma FirstObjectionIsGiven(p: Proof, req: Request, now: real, es: seq<Entry>, k: nat)
    requires k <= 10 && forall i :: 0 <= i < k ==> !Objections(p, req, now, es)[i].0
    requires k < 10 ==> Objections(p, req, now, es)[k].0
    ensures Judge(Decoded(p), req, now, es) == if k < 10 then Some(Objections(p, req, now, es)[k].1) else None
  {
    var os := Objections(p, req, now, es);
    assert k > 0 ==> !os[0].0;
    assert k > 1 ==> !os[1].0;
    assert k > 2 ==> !os[2].0;
    assert k > 3 ==> !os[3].0;
    assert k > 4 ==> !os[4].0;
    assert k > 5 ==> !os[5].0;
    assert k > 6 ==> !os[6].0;
    assert k > 7 ==> !os[7].0;
    assert k > 8 ==> !os[8].0;
    assert k > 9 ==> !os[9].0;
  }

  /** A base path without slashes at its ends. */
  predicate Bare(base: string) { base != "" && base[0] != '/' && base[|base| - 1] != '/' }

  lemma {:induction false} StripSlashesPads(before: nat, base: string, after: nat)
    requires Bare(base)
    ensures StripSlashes(seq(before, _ => '/') + base + seq(after, _ => '/')) == base
    decreases before + after
  {
    var s := seq(before, _ => '/') + base + seq(after, _ => '/');
    if before > 0 {
      assert s[1..] == seq(before - 1, _ => '/') + base + seq(after, _ => '/');
      StripSlashesPads(before - 1, base, after);
    } else if after > 0 {
      assert s[0] == base[0];
      assert s[..|s| - 1] == seq(0, _ => '/') + base + seq(after - 1, _ => '/');
      StripSlashesPads(0, base, after - 1);
    } else {
      assert s == base;
    }
  }

  /** However the base path is padded with slashes, exactly one leading whole segment of it is removed. */
  lemma PrefixIsWholeSegment(path: string, base: string, before: nat, after: nat)
    requires Bare(base)
    ensures var r := StripHostingPrefix(path, seq(before, _ => '/') + base + seq(after, _ => '/'));
      && (forall rest :: path == "/" + base + rest && (rest == "" || rest[0] == '/') ==> r == rest)
      && ((forall rest :: path == "/" + base + rest ==> rest != "" && rest[0] != '/') ==> r == path)
  {
    StripSlashesPads(before, base, after);
    var b := "/" + base;
    forall rest | path == b + rest && (rest == "" || rest[0] == '/')
      ensures StripHostingPrefix(path, seq(before, _ => '/') + base + seq(after, _ => '/')) == rest
    {
      assert path[|b|..] == rest;
      assert rest != "" ==> b + "/" <= path;
      assert rest == "" ==> path == b;
    }
    if b + "/" <= path {
      assert path == b + path[|b|..] && path[|b|..] != "" && path[|b|..][0] == '/';
    }
    if path == b { assert path == b + ""; }
  }

  /** Without a base path nothing is removed. */
  lemma {:induction false} NoBaseNoStrip(path: string, n: nat)
    ensures StripSlashes(seq(n, _ => '/')) == "" && StripHostingPrefix(path, seq(n, _ => '/')) == path
  {
    var s := seq(n, _ => '/');
    if n > 0 {
      assert s[1..] == seq(n - 1, _ => '/');
      NoBaseNoStrip(path, n - 1);
    }
  }

  // ----- the replay map, in insertion order -----

  datatype Entry = Entry(jti: Jti, expires: real)

  predicate Has(es: seq<Entry>, jti: Jti) { exists i :: 0 <= i < |es| && es[i].jti == jti }

  ghost predicate DistinctJtis(es: seq<Entry>)
  {
    forall i, j :: 0 <= i < j < |es| ==> es[i].jti != es[j].jti
  }

  /** The entries that have not expired. */
  function Live(es: seq<Entry>, now: real): seq<Entry>
  {
    if es == [] then []
    else
      var init, last := es[..|es| - 1], es[|es| - 1];
      Live(init, now) + if last.expires <= now then [] else [last]
  }

  function Trim(es: seq<Entry>, cap: nat): seq<Entry> { if |es| > cap then es[|es| - cap..] else es }

  function Purged(es: seq<Entry>, now: real, cap: nat): seq<Entry> { Trim(Live(es, now), cap) }

  function Without(es: seq<Entry>, jti: Jti): seq<Entry>
  {
    if es == [] then [] else (if es[0].jti == jti then [] else [es[0]]) + Without(es[1..], jti)
  }

  function Expiry(iat: real, now: real): real { (if now >= iat then now else iat) + WINDOW }

  /** The entry a winning proof leaves. */
  function EntryOf(p: Proof, now: real): Entry
    requires p.jti.Some? && p.iat.Number?
  {
    Entry(p.jti.value, Expiry(p.iat.at, now))
  }

  /** The map after one verification: only a winning proof changes it. */
  function Recorded(es: seq<Entry>, presented: Presented, req: Request, now: real, cap: nat): seq<Entry>
  {
    if Judge(presented, req, now, es).Some? then es
    else Purged(es + [EntryOf(presented.proof, now)], now, cap)
  }

  lemma {:induction false} LiveHas(es: seq<Entry>, now: real, e: Entry)
    ensures e in Live(es, now) <==> e in es && now < e.expires
  {
    if es != [] {
      LiveHas(es[..|es| - 1], now, e);
      assert es == es[..|es| - 1] + [es[|es| - 1]];
    }
  }

  lemma {:induction false} LiveDistinct(es: seq<Entry>, now: real)
    requires DistinctJtis(es)
    ensures DistinctJtis(Live(es, now))
  {
    if es != [] {
      var init := es[..|es| - 1];
      LiveDistinct(init, now);
      forall e | e in Live(init, now) ensures e in init { LiveHas(init, now, e); }
      assert forall i :: 0 <= i < |Live(init, now)| ==> Live(init, now)[i] in Live(init, now);
    }
  }

  lemma {:induction false} WithoutPrefix(before: seq<Entry>, e: Entry, after: seq<Entry>)
    requires DistinctJtis(before + [e] + after)
    ensures Without(before + [e] + after, e.jti) == before + after
    decreases |before|
  {
    var es := before + [e] + after;
    if before == [] {
      assert es[1..] == after;
      WithoutAbsent(after, e.jti);
    } else {
      assert es[1..] == before[1..] + [e] + after;
      assert DistinctJtis(es[1..]);
      WithoutPrefix(before[1..], e, after);
      assert es[0].jti != es[|before|].jti;
      assert before + after == [before[0]] + (before[1..] + after);
    }
  }

  lemma {:induction false} WithoutAbsent(es: seq<Entry>, jti: Jti)
    requires forall i :: 0 <= i < |es| ==> es[i].jti != jti
    ensures Without(es, jti) == es
    decreases |es|
  {
    if es != [] {
      WithoutAbsent(es[1..], jti);
    }
  }

  lemma WithoutFirst(es: seq<Entry>, i: nat)
    requires i < |es| && DistinctJtis(es)
    ensures Without(es[i..], es[i].jti) == es[i + 1..]
  {
    assert es[i..][1..] == es[i + 1..];
    WithoutAbsent(es[i + 1..], es[i].jti);
  }

  lemma DropOneDistinct(before: seq<Entry>, e: Entry, after: seq<Entry>)
    requires DistinctJtis(before + [e] + after)
    ensures DistinctJtis(before + after)
  {
    var all, rest := before + [e] + after, before + after;
    forall i, j | 0 <= i < j < |rest| ensures rest[i].jti != rest[j].jti {
      var i', j' := if i < |before| then i else i + 1, if j < |before| then j else j + 1;
      assert rest[i] == all[i'] && rest[j] == all[j'];
    }
  }

  lemma LiveSnoc(es: seq<Entry>, e: Entry, now: real)
    ensures Live(es + [e], now) == Live(es, now) + if e.expires <= now then [] else [e]
  {
    assert (es + [e])[..|es|] == es;
  }

  lemma LiveStep(es: seq<Entry>, i: nat, now: real)
    requires i < |es| && DistinctJtis(Live(es[..i], now) + es[i..])
    ensures var rest := if es[i].expires <= now then Without(Live(es[..i], now) + es[i..], es[i].jti)
                        else Live(es[..i], now) + es[i..];
      rest == Live(es[..i + 1], now) + es[i + 1..] && DistinctJtis(rest)
  {
    var live, e, tail := Live(es[..i], now), es[i], es[i + 1..];
    assert live + es[i..] == live + [e] + tail;
    assert es[..i + 1] == es[..i] + [e];
    LiveSnoc(es[..i], e, now);
    if e.expires <= now {
      WithoutPrefix(live, e, tail);
      DropOneDistinct(live, e, tail);
      assert live + [] == live;
    }
  }

  class ReplayMap {
    var entries: seq<Entry>
    const cap: nat

    ghost predicate Valid() reads this { DistinctJtis(entries) }

    constructor (cap: nat)
      ensures Valid() && entries == [] && this.cap == cap
    {
      entries, this.cap := [], cap;
    }

    /** The first loop of dpop.purge_replay: drop expired entries one by one. */
    method DropExpired(now: real)
      requires Valid()
      modifies this
      ensures Valid() && entries == Live(old(entries), now)
    {
      var snapshot := entries;
      for i := 0 to |snapshot|
        invariant entries == Live(snapshot[..i], now) + snapshot[i..] && DistinctJtis(entries)
      {
        LiveStep(snapshot, i, now);
        if snapshot[i].expires <= now {
          entries := Without(entries, snapshot[i].jti);
        }
      }
      assert snapshot[..|snapshot|] == snapshot;
    }

    /** dpop.purge_replay: drop the expired entries, then the oldest past the cap. */
    method Purge(now: real)
      requires Valid()
      modifies this
      ensures Valid() && entries == Purged(old(entries), now, cap)
    {
      DropExpired(now);
      var live := entries;
      var excess := |live| - cap;
      for i := 0 to if excess > 0 then excess else 0
        invariant entries == live[i..]
      {
        WithoutFirst(live, i);
        entries := Without(entries, live[i].jti);
      }
    }

    /** dpop.verify_proof: the first objection of header, claims and freshness, then the signature. */
    method VerifyProof(presented: Presented, req: Request, now: real) returns (reason: Option<Reason>)
      requires Valid()
      modifies this
      ensures Valid()
      ensures reason.None? <==>
        Acceptable(presented, req) && Fresh(presented.proof.iat, now) && !Has(old(entries), presented.proof.jti.value)
      ensures reason.Some? ==> entries == old(entries)
      ensures reason.None? ==> |entries| <= cap
      ensures reason.None? && cap > 0 ==> entries != [] && entries[|entries| - 1] == EntryOf(presented.proof, now)
      ensures reason == Judge(presented, req, now, old(entries))
      ensures entries == Recorded(old(entries), presented, req, now, cap)
    {
      if presented.Missing? {
        return Some(MissingProof);
      }
      if presented.Undecodable? {
        return Some(MalformedProof);
      }
      var p := presented.proof;
      var reasons := [HeaderReason(p, req.jkt), ClaimReason(p, req), FreshnessReason(p, now, entries)];
      for i := 0 to |reasons|
        invariant forall k :: 0 <= k < i ==> reasons[k].None?
      {
        if reasons[i].Some? {
          assert i > 0 ==> reasons[0].None?;
          assert i > 1 ==> reasons[1].None?;
          assert i == 0 || i == 1 || i == 2;
          return reasons[i];
        }
      }
      assert reasons[0].None? && reasons[1].None? && reasons[2].None?;
      reason := RecordIfAuthentic(p, now);
    }

    /** dpop._record_if_authentic. */
    method RecordIfAuthentic(p: Proof, now: real) returns (reason: Option<Reason>)
      requires Valid() && Fresh(p.iat, now) && p.jti.Some? && !Has(entries, p.jti.value)
      modifies this
      ensures Valid()
      ensures reason == if p.authentic then None else Some(BadSignature)
      ensures entries == if p.authentic then Purged(old(entries) + [EntryOf(p, now)], now, cap) else old(entries)
      ensures p.authentic ==> |entries| <= cap
      ensures p.authentic && cap > 0 ==> entries != [] && entries[|entries| - 1] == EntryOf(p, now)
    {
      if !p.authentic {
        return Some(BadSignature);
      }
      LiveSnoc(entries, EntryOf(p, now), now);
      entries := entries + [EntryOf(p, now)];
      Purge(now);
      return None;
    }
  }

  // ----- runs -----

  datatype Event = Event(presented: Presented, req: Request, now: real)

  /** The map after a run of verifications from an empty map. */
  function After(run: seq<Event>, cap: nat): seq<Entry>
  {
    if run == [] then []
    else
      var e := run[|run| - 1];
      Recorded(After(run[..|run| - 1], cap), e.presented, e.req, e.now, cap)
  }

  /** Verification `i` of the run succeeds. */
  predicate Accepts(run: seq<Event>, i: nat, cap: nat)
    requires i < |run|
  {
    Judge(run[i].presented, run[i].req, run[i].now, After(run[..i], cap)).None?
  }

  ghost predicate NonDecreasing(run: seq<Event>) { forall i, j :: 0 <= i < j < |run| ==> run[i].now <= run[j].now }

  ghost predicate StrictlyIncreasing(run: seq<Event>) { forall i, j :: 0 <= i < j < |run| ==> run[i].now < run[j].now }

  /** Whenever a proof is recorded, the unexpired entries still fit. */
  ghost predicate NeverTrims(run: seq<Event>, cap: nat)
  {
    forall i :: 0 <= i < |run| ==> FitsAt(run, i, cap)
  }

  ghost predicate FitsAt(run: seq<Event>, i: nat, cap: nat)
    requires i < |run|
  {
    Accepts(run, i, cap) ==>
      |Live(After(run[..i], cap) + [EntryOf(run[i].presented.proof, run[i].now)], run[i].now)| <= cap
  }

  lemma AfterStep(run: seq<Event>, i: nat, cap: nat)
    requires i < |run|
    ensures After(run[..i + 1], cap) == Recorded(After(run[..i], cap), run[i].presented, run[i].req, run[i].now, cap)
  {
    assert run[..i + 1][..i] == run[..i];
  }

  /** The map never holds one jti twice, never exceeds the cap, and a winning proof is its newest entry. */
  lemma {:induction false} MapStaysWithinCap(run: seq<Event>, cap: nat)
    requires cap > 0
    ensures DistinctJtis(After(run, cap)) && |After(run, cap)| <= cap
    ensures run != [] && Accepts(run, |run| - 1, cap) ==>
      After(run, cap) != [] &&
      After(run, cap)[|After(run, cap)| - 1] == EntryOf(run[|run| - 1].presented.proof, run[|run| - 1].now)
    decreases |run|
  {
    if run != [] {
      var es, e := After(run[..|run| - 1], cap), run[|run| - 1];
      MapStaysWithinCap(run[..|run| - 1], cap);
      if Judge(e.presented, e.req, e.now, es).None? {
        PurgedKeepsNewest(es, EntryOf(e.presented.proof, e.now), e.now, cap);
      }
    }
  }

  lemma PurgedKeepsNewest(es: seq<Entry>, entry: Entry, now: real, cap: nat)
    requires DistinctJtis(es) && !Has(es, entry.jti) && now < entry.expires && cap > 0
    ensures var after := Purged(es + [entry], now, cap);
      DistinctJtis(after) && 0 < |after| <= cap && after[|after| - 1] == entry
  {
    assert DistinctJtis(es + [entry]);
    LiveDistinct(es + [entry], now);
    LiveSnoc(es, entry, now);
  }

  // ----- what drops an entry -----

  /** The entries recorded after `entry`. */
  function Newer(es: seq<Entry>, entry: Entry): seq<Entry>
  {
    if es == [] then [] else if es[0] == entry then es[1..] else Newer(es[1..], entry)
  }

  lemma {:induction false} NewerSplits(es: seq<Entry>, entry: Entry) returns (before: seq<Entry>)
    requires entry in es
    ensures es == before + [entry] + Newer(es, entry) && entry !in before
    decreases |es|
  {
    if es[0] == entry {
      before := [];
    } else {
      var rest := NewerSplits(es[1..], entry);
      before := [es[0]] + rest;
    }
  }

  lemma {:induction false} LiveAppend(a: seq<Entry>, b: seq<Entry>, now: real)
    ensures Live(a + b, now) == Live(a, now) + Live(b, now)
    decreases |b|
  {
    if b == [] {
      assert a + b == a;
    } else {
      var init, last := b[..|b| - 1], b[|b| - 1];
      LiveAppend(a, init, now);
      LiveAppendOne(a, init, last, now);
      assert init + [last] == b;
    }
  }

  lemma LiveAppendOne(a: seq<Entry>, b: seq<Entry>, e: Entry, now: real)
    requires Live(a + b, now) == Live(a, now) + Live(b, now)
    ensures Live(a + (b + [e]), now) == Live(a, now) + Live(b + [e], now)
  {
    LiveSnoc(a + b, e, now);
    LiveSnoc(b, e, now);
    Associate(a, b, [e]);
    Associate(Live(a, now), Live(b, now), if e.expires <= now then [] else [e]);
  }

  lemma TrimKeeps(before: seq<Entry>, entry: Entry, after: seq<Entry>, cap: nat)
    requires entry !in before && entry !in after
    ensures entry in Trim(before + [entry] + after, cap) <==> |after| < cap
  {
    var es := before + [entry] + after;
    if |after| < cap {
      assert es[|before|] == entry;
      assert |es| > cap ==> Trim(es, cap)[|before| - (|es| - cap)] == entry;
    } else {
      assert Trim(es, cap) == after[|after| - cap..];
    }
  }

  /** A purge keeps an entry exactly when it has not expired and fewer than `cap` unexpired entries
      are newer. */
  lemma PurgedHas(es: seq<Entry>, entry: Entry, now: real, cap: nat)
    requires DistinctJtis(es) && entry in es
    ensures entry in Purged(es, now, cap) <==> now < entry.expires && |Live(Newer(es, entry), now)| < cap
  {
    LiveHas(es, now, entry);
    if entry.expires <= now {
      TrimMembers(Live(es, now), cap, entry);
    } else {
      var before := NewerSplits(es, entry);
      var after := Newer(es, entry);
      NotNewerThanItself(before, entry, after);
      LiveHas(before, now, entry);
      LiveHas(after, now, entry);
      LiveAround(before, entry, after, now);
      TrimKeeps(Live(before, now), entry, Live(after, now), cap);
    }
  }

  lemma NotNewerThanItself(before: seq<Entry>, entry: Entry, after: seq<Entry>)
    requires DistinctJtis(before + [entry] + after)
    ensures entry !in after
  {
    var es := before + [entry] + after;
    assert es[|before|] == entry;
    assert forall k :: 0 <= k < |after| ==> after[k] == es[|before| + 1 + k];
  }

  lemma LiveAround(before: seq<Entry>, entry: Entry, after: seq<Entry>, now: real)
    requires now < entry.expires
    ensures Live(before + [entry] + after, now) == Live(before, now) + [entry] + Live(after, now)
  {
    LiveAppend(before + [entry], after, now);
    LiveSnoc(before, entry, now);
  }

  lemma TrimMembers(es: seq<Entry>, cap: nat, entry: Entry)
    ensures entry in Trim(es, cap) ==> entry in es
  {
  }

  /** Verification `k` wins at or after the entry's expiry. */
  predicate PurgesAt(run: seq<Event>, k: nat, cap: nat, entry: Entry)
    requires k < |run|
  {
    Accepts(run, k, cap) && entry.expires <= run[k].now
  }

  /** Verification `k` wins while `cap` unexpired entries, its own included, are newer than `entry`. */
  predicate CrowdsOutAt(run: seq<Event>, k: nat, cap: nat, entry: Entry)
    requires k < |run|
  {
    Accepts(run, k, cap) &&
    |Live(Newer(After(run[..k], cap) + [EntryOf(run[k].presented.proof, run[k].now)], entry), run[k].now)| >= cap
  }

  predicate DropsAt(run: seq<Event>, k: nat, cap: nat, entry: Entry)
    requires k < |run|
  {
    PurgesAt(run, k, cap, entry) || CrowdsOutAt(run, k, cap, entry)
  }

  /** One verification takes an entry out of the map exactly when it drops it. */
  lemma StaysOrDropped(run: seq<Event>, cap: nat, k: nat, entry: Entry)
    requires cap > 0 && k < |run| && entry in After(run[..k], cap)
    ensures entry in After(run[..k + 1], cap) <==> !DropsAt(run, k, cap, entry)
  {
    AfterStep(run, k, cap);
    if Accepts(run, k, cap) {
      var es, e := After(run[..k], cap), EntryOf(run[k].presented.proof, run[k].now);
      MapStaysWithinCap(run[..k], cap);
      PurgedHas(es + [e], entry, run[k].now, cap);
    }
  }

  /** Some win after `i` and before `j` drops the entry. */
  predicate DroppedBetween(run: seq<Event>, cap: nat, i: nat, j: nat, entry: Entry)
    requires i < j <= |run|
  {
    i + 1 < j && (DroppedBetween(run, cap, i, j - 1, entry) || DropsAt(run, j - 1, cap, entry))
  }

  lemma {:induction false} DroppedBetweenMeans(run: seq<Event>, cap: nat, i: nat, j: nat, entry: Entry)
    requires i < j <= |run|
    ensures DroppedBetween(run, cap, i, j, entry) <==> exists k :: i < k < j && DropsAt(run, k, cap, entry)
  {
    if i + 1 < j { DroppedBetweenMeans(run, cap, i, j - 1, entry); }
  }

  lemma {:induction false} StaysUnlessDropped(run: seq<Event>, cap: nat, i: nat, j: nat, entry: Entry)
    requires cap > 0 && i < j <= |run| && entry in After(run[..i + 1], cap)
    ensures entry in After(run[..j], cap) || DroppedBetween(run, cap, i, j, entry)
    decreases j
  {
    if i + 1 < j {
      StaysUnlessDropped(run, cap, i, j - 1, entry);
      if entry in After(run[..j - 1], cap) { StaysOrDropped(run, cap, j - 1, entry); }
    }
  }

  /** An entry stays until a later winning proof drops it. */
  lemma EntryStays(run: seq<Event>, cap: nat, i: nat, j: nat, entry: Entry)
    requires cap > 0 && i < j <= |run| && entry in After(run[..i + 1], cap)
    ensures entry in After(run[..j], cap) || exists k :: i < k < j && DropsAt(run, k, cap, entry)
  {
    StaysUnlessDropped(run, cap, i, j, entry);
    DroppedBetweenMeans(run, cap, i, j, entry);
  }

  lemma WinIsRecorded(run: seq<Event>, cap: nat, i: nat)
    requires cap > 0 && i < |run| && Accepts(run, i, cap)
    ensures EntryOf(run[i].presented.proof, run[i].now) in After(run[..i + 1], cap)
  {
    MapStaysWithinCap(run[..i + 1], cap);
    assert run[..i + 1][..i] == run[..i];
  }

  predicate WinsWith(run: seq<Event>, k: nat, cap: nat, jti: Jti)
    requires k < |run|
  {
    Accepts(run, k, cap) && run[k].presented.proof.jti.value == jti
  }

  /** A verification brings no id into the map but that of its own winning proof. */
  lemma StepAddsOnlyWinner(run: seq<Event>, cap: nat, k: nat, entry: Entry)
    requires k < |run| && entry in After(run[..k + 1], cap)
    ensures entry in After(run[..k], cap) || WinsWith(run, k, cap, entry.jti)
  {
    AfterStep(run, k, cap);
    if Accepts(run, k, cap) {
      var es := After(run[..k], cap) + [EntryOf(run[k].presented.proof, run[k].now)];
      TrimMembers(Live(es, run[k].now), cap, entry);
      LiveHas(es, run[k].now, entry);
    }
  }

  /** Without a win of its own in between, an id that is absent stays absent. */
  lemma {:induction false} AbsentStays(run: seq<Event>, cap: nat, i: nat, j: nat, jti: Jti)
    requires i <= j <= |run| && !Has(After(run[..i], cap), jti)
    requires forall k :: i <= k < j ==> !WinsWith(run, k, cap, jti)
    ensures !Has(After(run[..j], cap), jti)
    decreases j
  {
    if i < j {
      AbsentStays(run, cap, i, j - 1, jti);
      var es := After(run[..j], cap);
      if Has(es, jti) {
        var m :| 0 <= m < |es| && es[m].jti == jti;
        StepAddsOnlyWinner(run, cap, j - 1, es[m]);
      }
    }
  }

  /** A dropped entry leaves its id absent. */
  lemma DropLeavesAbsent(run: seq<Event>, cap: nat, k: nat, entry: Entry)
    requires cap > 0 && k < |run| && entry in After(run[..k], cap)
    requires DropsAt(run, k, cap, entry) && !WinsWith(run, k, cap, entry.jti)
    ensures !Has(After(run[..k + 1], cap), entry.jti)
  {
    StaysOrDropped(run, cap, k, entry);
    var es, es' := After(run[..k], cap), After(run[..k + 1], cap);
    MapStaysWithinCap(run[..k], cap);
    if Has(es', entry.jti) {
      var m :| 0 <= m < |es'| && es'[m].jti == entry.jti;
      StepAddsOnlyWinner(run, cap, k, es'[m]);
      OneEntryPerJti(es, entry, es'[m]);
    }
  }

  lemma OneEntryPerJti(es: seq<Entry>, e: Entry, f: Entry)
    requires DistinctJtis(es) && e in es && f in es && e.jti == f.jti
    ensures e == f
  {
  }

  /** An id that won at `i` is remembered at `j` exactly when nothing in between dropped its entry. */
  lemma {:induction false} RememberedExactly(run: seq<Event>, cap: nat, i: nat, j: nat)
    requires cap > 0 && i < j <= |run| && Accepts(run, i, cap)
    requires forall k :: i < k < j ==> !WinsWith(run, k, cap, run[i].presented.proof.jti.value)
    ensures var entry := EntryOf(run[i].presented.proof, run[i].now);
      Has(After(run[..j], cap), entry.jti) <==> !exists k :: i < k < j && DropsAt(run, k, cap, entry)
  {
    var entry := EntryOf(run[i].presented.proof, run[i].now);
    WinIsRecorded(run, cap, i);
    EntryStays(run, cap, i, j, entry);
    if k :| i < k < j && DropsAt(run, k, cap, entry) {
      var first := FirstDrop(run, cap, i, k, entry);
      DropLeavesAbsent(run, cap, first, entry);
      AbsentStays(run, cap, first + 1, j, entry.jti);
    } else {
      assert Has(After(run[..j], cap), entry.jti);
    }
  }

  lemma {:induction false} FirstDrop(run: seq<Event>, cap: nat, i: nat, k: nat, entry: Entry) returns (first: nat)
    requires cap > 0 && i < k < |run| && entry in After(run[..i + 1], cap) && DropsAt(run, k, cap, entry)
    ensures i < first <= k && DropsAt(run, first, cap, entry) && entry in After(run[..first], cap)
    decreases k
  {
    EntryStays(run, cap, i, k, entry);
    if entry in After(run[..k], cap) {
      first := k;
    } else {
      var k' :| i < k' < k && DropsAt(run, k', cap, entry);
      first := FirstDrop(run, cap, i, k', entry);
    }
  }

  // ----- when a proof is accepted again -----

  /** A proof whose id has won before, presented acceptably, wins again exactly when it is fresh and
      some win in between dropped the entry: after its expiry, or by crowding it out of the cap. */
  lemma ReplayExactly(run: seq<Event>, cap: nat, i: nat, j: nat)
    requires cap > 0 && i < j < |run| && Accepts(run, i, cap) && Acceptable(run[j].presented, run[j].req)
    requires run[i].presented.proof.jti == run[j].presented.proof.jti
    requires forall k :: i < k < j ==> !WinsWith(run, k, cap, run[i].presented.proof.jti.value)
    ensures Accepts(run, j, cap) <==>
      && Fresh(run[j].presented.proof.iat, run[j].now)
      && exists k :: i < k < j && DropsAt(run, k, cap, EntryOf(run[i].presented.proof, run[i].now))
  {
    RememberedExactly(run, cap, i, j);
  }

  /** Where the unexpired entries always fit, only a win at or after the expiry counts. */
  lemma ReplayExactlyWithinCap(run: seq<Event>, cap: nat, i: nat, j: nat)
    requires cap > 0 && i < j < |run| && Accepts(run, i, cap) && Acceptable(run[j].presented, run[j].req)
    requires run[i].presented.proof.jti == run[j].presented.proof.jti
    requires forall k :: i < k < j ==> !WinsWith(run, k, cap, run[i].presented.proof.jti.value)
    requires NeverTrims(run, cap)
    ensures Accepts(run, j, cap) <==>
      && Fresh(run[j].presented.proof.iat, run[j].now)
      && exists k :: i < k < j && PurgesAt(run, k, cap, EntryOf(run[i].presented.proof, run[i].now))
  {
    var entry := EntryOf(run[i].presented.proof, run[i].now);
    ReplayExactly(run, cap, i, j);
    assert forall k :: i < k < j && PurgesAt(run, k, cap, entry) ==> DropsAt(run, k, cap, entry);
    if k :| i < k < j && DropsAt(run, k, cap, entry) {
      WinIsRecorded(run, cap, i);
      var first := FirstDrop(run, cap, i, k, entry);
      FittingDropIsPurge(run, cap, first, entry);
    }
  }

  lemma FittingDropIsPurge(run: seq<Event>, cap: nat, k: nat, entry: Entry)
    requires cap > 0 && k < |run| && FitsAt(run, k, cap) && entry in After(run[..k], cap) && DropsAt(run, k, cap, entry)
    ensures PurgesAt(run, k, cap, entry)
  {
    var es, now := After(run[..k], cap) + [EntryOf(run[k].presented.proof, run[k].now)], run[k].now;
    if now < entry.expires {
      var before := NewerSplits(es, entry);
      LiveAround(before, entry, Newer(es, entry), now);
    }
  }

  /** The tie: the first win is not after the proof's iat, the second presentation falls on the very
      last instant of the window, and another proof wins in between at that same reading. */
  ghost predicate Ties(run: seq<Event>, cap: nat, i: nat, j: nat)
    requires i < j < |run| && run[i].presented.Decoded? && run[i].presented.proof.iat.Number?
  {
    var iat := run[i].presented.proof.iat.at;
    run[i].now <= iat && run[j].now == iat + WINDOW && exists k :: i < k < j && WinsLast(run, cap, k, iat)
  }

  predicate WinsLast(run: seq<Event>, cap: nat, k: nat, iat: real)
    requires k < |run|
  {
    Accepts(run, k, cap) && run[k].now == iat + WINDOW
  }

  /** With a clock that never goes back and within the cap, one and the same proof wins again exactly
      at a tie. */
  lemma ReplayExactlyAtTie(run: seq<Event>, cap: nat, i: nat, j: nat)
    requires cap > 0 && i < j < |run| && Accepts(run, i, cap) && Acceptable(run[j].presented, run[j].req)
    requires run[i].presented.proof.jti == run[j].presented.proof.jti
    requires run[i].presented.proof.iat == run[j].presented.proof.iat
    requires forall k :: i < k < j ==> !WinsWith(run, k, cap, run[i].presented.proof.jti.value)
    requires NonDecreasing(run) && NeverTrims(run, cap)
    ensures Accepts(run, j, cap) <==> Ties(run, cap, i, j)
  {
    var entry, iat := EntryOf(run[i].presented.proof, run[i].now), run[i].presented.proof.iat.at;
    ReplayExactlyWithinCap(run, cap, i, j);
    if Accepts(run, j, cap) {
      var k :| i < k < j && PurgesAt(run, k, cap, entry);
      assert run[i].now <= run[k].now <= run[j].now;
      assert WinsLast(run, cap, k, iat);
    } else if Ties(run, cap, i, j) {
      var k :| i < k < j && WinsLast(run, cap, k, iat);
      assert PurgesAt(run, k, cap, entry);
    }
  }

  /** Any two wins of one proof, next to each other or not, are such a tie. */
  lemma ReplayOnlyAtTie(run: seq<Event>, cap: nat, i: nat, j: nat)
    requires NonDecreasing(run) && NeverTrims(run, cap) && cap > 0
    requires i < j < |run| && Accepts(run, i, cap) && Accepts(run, j, cap)
    requires run[i].presented.proof.jti == run[j].presented.proof.jti
    requires run[i].presented.proof.iat == run[j].presented.proof.iat
    ensures Ties(run, cap, i, j)
  {
    var entry := EntryOf(run[i].presented.proof, run[i].now);
    WinIsRecorded(run, cap, i);
    EntryStays(run, cap, i, j, entry);
    assert entry in After(run[..j], cap) ==> Has(After(run[..j], cap), entry.jti);
    var k :| i < k < j && DropsAt(run, k, cap, entry);
    var first := FirstDrop(run, cap, i, k, entry);
    FittingDropIsPurge(run, cap, first, entry);
    assert run[i].now <= run[first].now <= run[j].now;
    assert WinsLast(run, cap, first, run[i].presented.proof.iat.at);
  }

  /** With a strictly increasing clock and within the cap no proof is accepted twice, future-dated
      ones included. */
  lemma NoReplay(run: seq<Event>, cap: nat, i: nat, j: nat)
    requires StrictlyIncreasing(run) && NeverTrims(run, cap) && cap > 0
    requires i < j < |run| && Accepts(run, i, cap) && Accepts(run, j, cap)
    ensures run[i].presented.proof.jti != run[j].presented.proof.jti
         || run[i].presented.proof.iat != run[j].presented.proof.iat
  {
    if run[i].presented.proof.jti == run[j].presented.proof.jti
       && run[i].presented.proof.iat == run[j].presented.proof.iat {
      ReplayOnlyAtTie(run, cap, i, j);
    }
  }

  // ----- both conditions are needed -----

  const REQUEST := Request("GET", "/", "", "h", "k")

  function Sample(jti: Jti, iat: real, now: real): Event
  {
    Event(Decoded(Proof("dpop+jwt", "ES256", Some("k"), Some("GET"), Some("/"), Some("h"), Number(iat), Some(jti), true)),
          REQUEST, now)
  }

  /** A sample proof with a new jti wins and is recorded. */
  lemma SampleWins(run: seq<Event>, jti: Jti, iat: real, now: real, cap: nat)
    requires -WINDOW <= now - iat <= WINDOW && !Has(After(run, cap), jti)
    ensures var longer := run + [Sample(jti, iat, now)];
      && Accepts(longer, |run|, cap)
      && After(longer, cap) == Purged(After(run, cap) + [Entry(jti, Expiry(iat, now))], now, cap)
  {
    SampleJudged(After(run, cap), jti, iat, now);
    Extended(run, Sample(jti, iat, now), cap);
  }

  lemma SampleJudged(es: seq<Entry>, jti: Jti, iat: real, now: real)
    requires -WINDOW <= now - iat <= WINDOW && !Has(es, jti)
    ensures Judge(Sample(jti, iat, now).presented, REQUEST, now, es).None?
  {
  }

  lemma Extended(run: seq<Event>, e: Event, cap: nat)
    ensures After(run + [e], cap) == Recorded(After(run, cap), e.presented, e.req, e.now, cap)
    ensures Accepts(run + [e], |run|, cap) == Judge(e.presented, e.req, e.now, After(run, cap)).None?
  {
    assert (run + [e])[..|run|] == run;
  }

  lemma AcceptsAlready(run: seq<Event>, more: seq<Event>, i: nat, cap: nat)
    requires i < |run|
    ensures Accepts(run + more, i, cap) == Accepts(run, i, cap)
  {
    assert (run + more)[..i] == run[..i];
  }

  lemma FirstEntry(e: Entry, now: real, cap: nat)
    requires now < e.expires && cap > 0
    ensures Purged([] + [e], now, cap) == [e]
  {
    LiveSnoc([], e, now);
  }

  lemma SecondEntry(e: Entry, f: Entry, now: real, cap: nat)
    requires e.expires <= now < f.expires && cap > 0
    ensures Purged([e] + [f], now, cap) == [f]
  {
    LiveSnoc([e], f, now);
    assert [] + [e] == [e];
    LiveSnoc([], e, now);
  }

  /** Verifications at one clock reading can let a proof through twice, whatever the cap. */
  lemma ReplayAtEqualClock(a: Jti, b: Jti, cap: nat)
    requires a != b && cap > 0
    ensures var run := [] + [Sample(a, 0.0, 0.0)] + [Sample(b, 300.0, 300.0)] + [Sample(a, 0.0, 300.0)];
      NonDecreasing(run) && Accepts(run, 0, cap) && Accepts(run, 2, cap)
  {
    var r1 := [] + [Sample(a, 0.0, 0.0)];
    var r2 := r1 + [Sample(b, 300.0, 300.0)];
    SampleWins([], a, 0.0, 0.0, cap);
    FirstEntry(Entry(a, 300.0), 0.0, cap);
    SampleWins(r1, b, 300.0, 300.0, cap);
    SecondEntry(Entry(a, 300.0), Entry(b, 600.0), 300.0, cap);
    SampleWins(r2, a, 0.0, 300.0, cap);
    AcceptsAlready(r1, [Sample(b, 300.0, 300.0)], 0, cap);
    AcceptsAlready(r2, [Sample(a, 0.0, 300.0)], 0, cap);
  }

  // ----- past the cap -----

  /** Presentations of the given ids at the given readings, all dated 0. */
  function Burst(jtis: seq<Jti>, times: seq<real>): seq<Event>
    requires |jtis| == |times|
  {
    seq(|jtis|, i requires 0 <= i < |jtis| => Sample(jtis[i], 0.0, times[i]))
  }

  function Remembered(jtis: seq<Jti>, times: seq<real>): seq<Entry>
    requires |jtis| == |times|
  {
    seq(|jtis|, i requires 0 <= i < |jtis| => Entry(jtis[i], times[i] + WINDOW))
  }

  /** Strictly increasing readings inside the window. */
  ghost predicate Ticks(times: seq<real>)
  {
    && (forall i :: 0 <= i < |times| ==> 0.0 <= times[i] < WINDOW)
    && (forall i, j :: 0 <= i < j < |times| ==> times[i] < times[j])
  }

  ghost predicate AllDifferent(jtis: seq<Jti>) { forall i, j :: 0 <= i < j < |jtis| ==> jtis[i] != jtis[j] }

  lemma {:induction false} LiveAll(es: seq<Entry>, now: real)
    requires forall i :: 0 <= i < |es| ==> now < es[i].expires
    ensures Live(es, now) == es
  {
    if es != [] { LiveAll(es[..|es| - 1], now); }
  }

  /** Up to `cap` different ids all win and are all remembered. */
  lemma {:induction false} BurstFills(jtis: seq<Jti>, times: seq<real>, n: nat, cap: nat)
    requires |jtis| == |times| && Ticks(times) && AllDifferent(jtis) && n <= |jtis| && n <= cap
    ensures After(Burst(jtis[..n], times[..n]), cap) == Remembered(jtis[..n], times[..n])
    ensures n < |jtis| ==> BurstGoesOn(jtis, times, n, cap)
    decreases n
  {
    if n > 0 {
      BurstFills(jtis, times, n - 1, cap);
      assert Trim(Remembered(jtis[..n], times[..n]), cap) == Remembered(jtis[..n], times[..n]);
    }
    if n < |jtis| { BurstStep(jtis, times, n, cap); }
  }

  /** The next presentation wins, and before trimming its entry joins all the others. */
  ghost predicate BurstGoesOn(jtis: seq<Jti>, times: seq<real>, n: nat, cap: nat)
    requires |jtis| == |times| && n < |jtis|
  {
    && Accepts(Burst(jtis[..n + 1], times[..n + 1]), n, cap)
    && Live(After(Burst(jtis[..n], times[..n]), cap) + [Entry(jtis[n], times[n] + WINDOW)], times[n])
       == Remembered(jtis[..n + 1], times[..n + 1])
    && After(Burst(jtis[..n + 1], times[..n + 1]), cap) == Trim(Remembered(jtis[..n + 1], times[..n + 1]), cap)
  }

  lemma BurstStep(jtis: seq<Jti>, times: seq<real>, n: nat, cap: nat)
    requires |jtis| == |times| && Ticks(times) && AllDifferent(jtis) && n < |jtis|
    requires After(Burst(jtis[..n], times[..n]), cap) == Remembered(jtis[..n], times[..n])
    ensures BurstGoesOn(jtis, times, n, cap)
  {
    BurstSnoc(jtis, times, n);
    BurstAlive(jtis, times, n);
    BurstWins(Burst(jtis[..n], times[..n]), Burst(jtis[..n + 1], times[..n + 1]), Remembered(jtis[..n], times[..n]),
              Remembered(jtis[..n + 1], times[..n + 1]), jtis[n], times[n], cap);
    PurgedIsTrim(Remembered(jtis[..n + 1], times[..n + 1]), times[n], cap);
  }

  lemma BurstWins(run: seq<Event>, longer: seq<Event>, es: seq<Entry>, es': seq<Entry>, jti: Jti, at: real, cap: nat)
    requires longer == run + [Sample(jti, 0.0, at)] && es' == es + [Entry(jti, at + WINDOW)]
    requires After(run, cap) == es && !Has(es, jti) && 0.0 <= at < WINDOW
    ensures Accepts(longer, |run|, cap) && After(longer, cap) == Purged(es', at, cap)
  {
    SampleWins(run, jti, 0.0, at, cap);
    assert Expiry(0.0, at) == at + WINDOW;
  }

  lemma PurgedIsTrim(es: seq<Entry>, now: real, cap: nat)
    requires Live(es, now) == es
    ensures Purged(es, now, cap) == Trim(es, cap)
  {
  }

  /** None of the readings so far is a window old. */
  lemma BurstAlive(jtis: seq<Jti>, times: seq<real>, n: nat)
    requires |jtis| == |times| && Ticks(times) && n < |jtis|
    ensures var es := Remembered(jtis[..n + 1], times[..n + 1]); Live(es, times[n]) == es
  {
    LiveAll(Remembered(jtis[..n + 1], times[..n + 1]), times[n]);
  }

  lemma BurstSnoc(jtis: seq<Jti>, times: seq<real>, n: nat)
    requires |jtis| == |times| && AllDifferent(jtis) && n < |jtis|
    ensures Burst(jtis[..n + 1], times[..n + 1]) == Burst(jtis[..n], times[..n]) + [Sample(jtis[n], 0.0, times[n])]
    ensures Remembered(jtis[..n + 1], times[..n + 1])
         == Remembered(jtis[..n], times[..n]) + [Entry(jtis[n], times[n] + WINDOW)]
    ensures !Has(Remembered(jtis[..n], times[..n]), jtis[n])
  {
  }

  /** For every cap: after `cap` other ids have won within its window, a proof wins again. The entries
      fit up to the last of those ids, which drops the proof's own entry. */
  lemma ReplayPastCap(jtis: seq<Jti>, times: seq<real>, cap: nat, last: real)
    requires cap > 0 && |jtis| == |times| == cap + 1 && AllDifferent(jtis)
    requires Ticks(times + [last])
    ensures var run := Burst(jtis, times) + [Sample(jtis[0], 0.0, last)];
      && StrictlyIncreasing(run) && run[0].presented == run[cap + 1].presented
      && Accepts(run, 0, cap) && Accepts(run, cap + 1, cap)
      && (forall i :: 0 <= i < cap ==> FitsAt(run, i, cap)) && !FitsAt(run, cap, cap)
  {
    var run := Burst(jtis, times) + [Sample(jtis[0], 0.0, last)];
    BurstClock(jtis, times, last);
    forall n | 0 <= n <= cap ensures Accepts(run, n, cap) && (FitsAt(run, n, cap) <==> n < cap) {
      BurstFills(jtis, times, n, cap);
      BurstPrefix(jtis, times, run, n, cap);
    }
    FirstWinsAgain(jtis, times, cap, last);
  }

  lemma BurstClock(jtis: seq<Jti>, times: seq<real>, last: real)
    requires |jtis| == |times| > 0 && Ticks(times + [last])
    ensures Ticks(times) && 0.0 <= last < WINDOW && StrictlyIncreasing(Burst(jtis, times) + [Sample(jtis[0], 0.0, last)])
  {
    var run, clock := Burst(jtis, times) + [Sample(jtis[0], 0.0, last)], times + [last];
    assert forall i :: 0 <= i < |run| ==> run[i].now == clock[i];
    assert clock[|times|] == last && forall i :: 0 <= i < |times| ==> times[i] == clock[i];
  }

  lemma FirstWinsAgain(jtis: seq<Jti>, times: seq<real>, cap: nat, last: real)
    requires cap > 0 && |jtis| == |times| == cap + 1 && AllDifferent(jtis) && Ticks(times) && 0.0 <= last < WINDOW
    ensures Accepts(Burst(jtis, times) + [Sample(jtis[0], 0.0, last)], cap + 1, cap)
  {
    BurstFills(jtis, times, cap, cap);
    assert jtis[..cap + 1] == jtis && times[..cap + 1] == times;
    assert After(Burst(jtis, times), cap) == Remembered(jtis, times)[1..];
    FirstIsForgotten(jtis, times);
    SampleWins(Burst(jtis, times), jtis[0], 0.0, last, cap);
  }

  lemma FirstIsForgotten(jtis: seq<Jti>, times: seq<real>)
    requires |jtis| == |times| > 0 && AllDifferent(jtis)
    ensures !Has(Remembered(jtis, times)[1..], jtis[0])
  {
  }

  lemma BurstPrefix(jtis: seq<Jti>, times: seq<real>, run: seq<Event>, n: nat, cap: nat)
    requires |jtis| == |times| && n < |jtis| && Burst(jtis, times) <= run && BurstGoesOn(jtis, times, n, cap)
    requires 0.0 <= times[n]
    ensures Accepts(run, n, cap) && (FitsAt(run, n, cap) <==> n < cap)
  {
    assert run[..n] == Burst(jtis[..n], times[..n]);
    assert Burst(jtis[..n + 1], times[..n + 1])[..n] == run[..n];
    assert Burst(jtis[..n + 1], times[..n + 1])[n] == run[n] == Sample(jtis[n], 0.0, times[n]);
    assert EntryOf(run[n].presented.proof, run[n].now) == Entry(jtis[n], times[n] + WINDOW);
  }

  /** Ever closer to the end of the window. */
  function Tick(n: nat): real { if n == 0 then 0.0 else (Tick(n - 1) + WINDOW) / 2.0 }

  lemma {:induction false} TickGrows(m: nat, n: nat)
    requires m <= n
    ensures 0.0 <= Tick(m) <= Tick(n) < WINDOW && (m < n ==> Tick(m) < Tick(n))
  {
    if n > 0 {
      TickGrows(if m < n then m else n - 1, n - 1);
    }
  }

  /** Such a run exists for the cap the source uses. */
  lemma SourceCapIsPassed() returns (run: seq<Event>)
    ensures StrictlyIncreasing(run) && |run| == REPLAY_CACHE_MAX + 2
    ensures run[0].presented == run[REPLAY_CACHE_MAX + 1].presented
    ensures Accepts(run, 0, REPLAY_CACHE_MAX) && Accepts(run, REPLAY_CACHE_MAX + 1, REPLAY_CACHE_MAX)
  {
    var cap := REPLAY_CACHE_MAX;
    var jtis := seq(cap + 1, i requires 0 <= i < cap + 1 => seq(i, _ => 'a'));
    var times := seq(cap + 1, i requires 0 <= i < cap + 1 => Tick(i));
    var clock := times + [Tick(cap + 1)];
    assert AllDifferent(jtis) by {
      forall i, j | 0 <= i < j < |jtis| ensures jtis[i] != jtis[j] {
        assert |jtis[i]| == i && |jtis[j]| == j;
      }
    }
    assert forall i :: 0 <= i < |clock| ==> clock[i] == Tick(i);
    forall i, j | 0 <= i <= j < |clock| ensures 0.0 <= clock[i] < WINDOW && (i < j ==> clock[i] < clock[j]) {
      TickGrows(i, j);
    }
    ReplayPastCap(jtis, times, cap, Tick(cap + 1));
    run := Burst(jtis, times) + [Sample(jtis[0], 0.0, Tick(cap + 1))];
  }
}
