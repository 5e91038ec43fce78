/** Reading candidates out of a window archive, and why their order in the archive does not matter. */
module WindowCandidates {
  import opened Wrappers
  import opened DifficultyAuction
  import RewardStats
  import AuctionOptimality
  import Orders
  import Text

  /** A row of `batch` or `runners_up`. Each optional field is `None` when it is missing or does not convert:
      `digest` is the decoded `selection_digest` or `merkle_root`. */
  datatype Entry = NotAnObject | Entry(
    envName: Option<string>, stats: RewardStats.StatFields, hotkey: Option<string>,
    promptIdx: Option<int>, drandRound: Option<int>, digest: Option<seq<Byte>>,
    arrivalAge: Option<real>, responseTime: Option<real>,
    selected: bool, rewarded: bool, operatorId: Option<string>)

  /** A window archive. A field that does not hold a list is `None`. */
  datatype Archive = Archive(environment: string, batch: Option<seq<Entry>>, runnersUp: Option<seq<Entry>>)

  /** The functions of the platform that the script calls. */
  datatype Platform = Platform(sqrt: real -> real, sha256: seq<Byte> -> seq<Byte>)

  function NonNegative(x: Option<real>): Option<real>
  {
    if x.Some? && x.value >= 0.0 then x else None
  }

  /** `_candidate_from_entry`. */
  function FromEntry(p: Platform, e: Entry): Option<Candidate>
    requires e.Entry?
  {
    var stats := RewardStats.EntryStats(e.stats, p.sqrt);
    if stats.None? || e.hotkey.None? || e.promptIdx.None? || e.drandRound.None? then None else
    var hotkey := Text.Strip(e.hotkey.value);
    var prompt, round := e.promptIdx.value, e.drandRound.value;
    if hotkey == "" || prompt < 0 || round < 0 then None else
    var digest := if e.digest.Some? && |e.digest.value| == 32 then e.digest.value
                  else p.sha256(Utf8(hotkey + ":" + Text.Decimal(prompt) + ":" + Text.Decimal(round)));
    Some(Candidate(hotkey, prompt, round, digest, stats.value.mean, stats.value.std, stats.value.count,
                   NonNegative(e.arrivalAge), NonNegative(e.responseTime),
                   e.selected, e.rewarded, NormalizedIdentity(e.operatorId)))
  }

  function Entries(archive: Archive): seq<Entry>
  {
    (if archive.batch.Some? then archive.batch.value else []) +
    (if archive.runnersUp.Some? then archive.runnersUp.value else [])
  }

  predicate Matches(archive: Archive, environment: string, e: Entry)
  {
    e.Entry? && (if e.envName.Some? then e.envName.value else archive.environment) == environment
  }

  /** The candidate that an entry contributes to this environment. */
  function Offer(p: Platform, archive: Archive, environment: string, e: Entry): Option<Candidate>
  {
    if Matches(archive, environment, e) then FromEntry(p, e) else None
  }

  type DedupKey = (string, nat, seq<Byte>)

  function KeyOf(c: Candidate): DedupKey { (c.hotkey, c.promptIdx, c.selectionDigest) }

  predicate HasKey(cs: seq<Candidate>, key: DedupKey) { exists c :: c in cs && KeyOf(c) == key }

  /** The offers of the entries, in order, each dedup key once. */
  function FirstOffers(p: Platform, archive: Archive, environment: string, entries: seq<Entry>): seq<Candidate>
  {
    if entries == [] then [] else
    var before := FirstOffers(p, archive, environment, entries[..|entries| - 1]);
    var offer := Offer(p, archive, environment, entries[|entries| - 1]);
    if offer.Some? && !HasKey(before, KeyOf(offer.value)) then before + [offer.value] else before
  }

  function Missing(p: Platform, archive: Archive, environment: string, entries: seq<Entry>): nat
  {
    if entries == [] then 0 else
    var e := entries[|entries| - 1];
    Missing(p, archive, environment, entries[..|entries| - 1]) +
    if Matches(archive, environment, e) && FromEntry(p, e).None? then 1 else 0
  }

  function Extracted(p: Platform, archive: Archive, environment: string): seq<Candidate>
  {
    FirstOffers(p, archive, environment, Entries(archive))
  }

  /** `extract_window_candidates`, with its set of seen keys. */
  method ExtractWindowCandidates(p: Platform, archive: Archive, environment: string)
    returns (candidates: seq<Candidate>, missing: nat)
    ensures candidates == Extracted(p, archive, environment)
    ensures missing == Missing(p, archive, environment, Entries(archive))
  {
    hide FromEntry, HasKey;
    candidates, missing := [], 0;
    NoKeys();
    var seen: set<DedupKey> := {};
    var entries := Entries(archive);
    for i := 0 to |entries|
      invariant candidates == FirstOffers(p, archive, environment, entries[..i])
      invariant missing == Missing(p, archive, environment, entries[..i])
      invariant forall key :: key in seen <==> HasKey(candidates, key)
    {
      assert entries[..i + 1][..i] == entries[..i];
      var e := entries[i];
      if Matches(archive, environment, e) {
        var candidate := FromEntry(p, e);
        if candidate.None? {
          missing := missing + 1;
        } else if KeyOf(candidate.value) !in seen {
          SeenGrows(candidates, candidate.value);
          seen := seen + {KeyOf(candidate.value)};
          candidates := candidates + [candidate.value];
        }
      }
    }
    assert entries[..|entries|] == entries;
  }

  lemma NoKeys()
    ensures forall key :: !HasKey([], key)
  {
  }

  lemma SeenGrows(cs: seq<Candidate>, c: Candidate)
    ensures forall key :: HasKey(cs + [c], key) <==> HasKey(cs, key) || key == KeyOf(c)
  {
    forall key
      ensures HasKey(cs + [c], key) <==> HasKey(cs, key) || key == KeyOf(c)
    {
      if key == KeyOf(c) {
        assert c in cs + [c];
      } else if HasKey(cs, key) {
        var d :| d in cs && KeyOf(d) == key;
        assert d in cs + [c];
      }
    }
  }

  // ---------------------------------------------------------------- what extraction keeps

  ghost predicate DistinctKeys(cs: seq<Candidate>)
  {
    forall i, j :: 0 <= i < j < |cs| ==> KeyOf(cs[i]) != KeyOf(cs[j])
  }

  /** All candidates that the entries offer, before dedup. */
  ghost function Offered(p: Platform, archive: Archive, environment: string, entries: seq<Entry>): set<Candidate>
  {
    set e | e in entries && Offer(p, archive, environment, e).Some? :: Offer(p, archive, environment, e).value
  }

  /** Every candidate was offered by an entry, every offered key survives exactly once, and every digest has
      the fixed length that the ranking key relies on. */
  lemma {:induction false} ExtractionSound(p: Platform, archive: Archive, environment: string, entries: seq<Entry>)
    requires forall b :: |p.sha256(b)| == 32
    ensures var cs, offered := FirstOffers(p, archive, environment, entries), Offered(p, archive, environment, entries);
            && DistinctKeys(cs)
            && (forall c :: c in cs ==> c in offered && |c.selectionDigest| == 32)
            && (forall c :: c in offered ==> HasKey(cs, KeyOf(c)))
  {
    if entries != [] {
      var rest, last := entries[..|entries| - 1], entries[|entries| - 1];
      ExtractionSound(p, archive, environment, rest);
      var before := FirstOffers(p, archive, environment, rest);
      var offer := Offer(p, archive, environment, last);
      assert Offered(p, archive, environment, entries)
             == Offered(p, archive, environment, rest) + if offer.Some? then {offer.value} else {} by {
        assert entries == rest + [last];
      }
      if offer.Some? {
        assert |offer.value.selectionDigest| == 32;
        hide FromEntry, Offer, Offered;
        SeenGrows(before, offer.value);
        if !HasKey(before, KeyOf(offer.value)) {
          NewKey(before, offer.value);
        }
      }
    }
  }

  lemma NewKey(cs: seq<Candidate>, c: Candidate)
    requires DistinctKeys(cs) && !HasKey(cs, KeyOf(c))
    ensures DistinctKeys(cs + [c])
  {
    forall i | 0 <= i < |cs|
      ensures KeyOf(cs[i]) != KeyOf(c)
    {
      assert cs[i] in cs;
    }
  }

  // ---------------------------------------------------------------- the ranking key

  /** The code point that an encoded character stands for. */
  function Decode(u: seq<int>): int
  {
    if |u| == 1 then u[0]
    else if |u| == 2 then (u[0] - 0xC0) * 0x40 + u[1] - 0x80
    else if |u| == 3 then (u[0] - 0xE0) * 0x1000 + (u[1] - 0x80) * 0x40 + u[2] - 0x80
    else if |u| == 4 then (u[0] - 0xF0) * 0x4_0000 + (u[1] - 0x80) * 0x1000 + (u[2] - 0x80) * 0x40 + u[3] - 0x80
    else 0
  }

  lemma SixBitDigits(c: nat)
    ensures c == c / 0x40 * 0x40 + c % 0x40
    ensures c / 0x40 == c / 0x1000 * 0x40 + c / 0x40 % 0x40
    ensures c / 0x1000 == c / 0x4_0000 * 0x40 + c / 0x1000 % 0x40
  {
  }

  lemma DecodeEncode(a: char)
    ensures Decode(Utf8Char(a)) == a as int
  {
    SixBitDigits(a as int);
  }

  function LengthFromLead(lead: Byte): nat
  {
    if lead < 0x80 then 1 else if lead < 0xE0 then 2 else if lead < 0xF0 then 3 else 4
  }

  lemma LeadByte(a: char)
    ensures |Utf8Char(a)| == LengthFromLead(Utf8Char(a)[0])
  {
  }

  lemma Utf8CharInjective(a: char, b: char, x: seq<Byte>, y: seq<Byte>)
    requires Utf8Char(a) + x == Utf8Char(b) + y
    ensures a == b && x == y
  {
    DecodeEncode(a);
    DecodeEncode(b);
    LeadByte(a);
    LeadByte(b);
    hide Utf8Char, Decode;
    var u, v := Utf8Char(a), Utf8Char(b);
    assert u[0] == (u + x)[0] && v[0] == (v + y)[0];
    assert u == (u + x)[..|u|] && v == (v + y)[..|v|];
    assert x == (u + x)[|u|..] && y == (v + y)[|v|..];
  }

  lemma {:induction false} Utf8Injective(a: string, b: string)
    requires Utf8(a) == Utf8(b)
    ensures a == b
  {
    if a != [] && b != [] {
      Utf8CharInjective(a[0], b[0], Utf8(a[1..]), Utf8(b[1..]));
      Utf8Injective(a[1..], b[1..]);
      assert a == [a[0]] + a[1..] && b == [b[0]] + b[1..];
    }
  }

  function Capacity(width: nat): nat { if width == 0 then 1 else 256 * Capacity(width - 1) }

  lemma {:induction false} BigEndianInjective(m: nat, n: nat, width: nat)
    requires m < Capacity(width) && n < Capacity(width)
    requires BigEndian(m, width) == BigEndian(n, width)
    ensures m == n
  {
    if width > 0 {
      var x, y := BigEndian(m / 256, width - 1), BigEndian(n / 256, width - 1);
      assert (x + [m % 256])[..width - 1] == x && (y + [n % 256])[..width - 1] == y;
      assert (x + [m % 256])[width - 1] == m % 256 && (y + [n % 256])[width - 1] == n % 256;
      BigEndianInjective(m / 256, n / 256, width - 1);
    }
  }

  lemma EightBytes()
    ensures Capacity(8) == PROMPT_BOUND
  {
    assert Capacity(2) == 0x1_0000;
    assert Capacity(4) == 0x1_0000_0000;
    assert Capacity(6) == 0x1_0000_0000_0000;
  }

  /** The fixed eight plus thirty-two byte suffix makes the bytes under the hash determine the dedup key. */
  lemma KeyBytesInjective(x: Candidate, y: Candidate)
    requires x.promptIdx < PROMPT_BOUND && y.promptIdx < PROMPT_BOUND
    requires |x.selectionDigest| == |y.selectionDigest| == 32
    requires KeyBytes(x) == KeyBytes(y)
    ensures KeyOf(x) == KeyOf(y)
  {
    var n := |KeyBytes(x)|;
    assert Utf8(x.hotkey) == KeyBytes(x)[..n - 40] && Utf8(y.hotkey) == KeyBytes(y)[..n - 40];
    assert BigEndian(x.promptIdx, 8) == KeyBytes(x)[n - 40..n - 32];
    assert BigEndian(y.promptIdx, 8) == KeyBytes(y)[n - 40..n - 32];
    assert x.selectionDigest == KeyBytes(x)[n - 32..] && y.selectionDigest == KeyBytes(y)[n - 32..];
    Utf8Injective(x.hotkey, y.hotkey);
    EightBytes();
    BigEndianInjective(x.promptIdx, y.promptIdx, 8);
  }

  // ---------------------------------------------------------------- archive order

  /** Entries that share a dedup key describe the same candidate. */
  ghost predicate Consistent(p: Platform, archive: Archive, environment: string)
  {
    var offered := Offered(p, archive, environment, Entries(archive));
    forall c, d :: c in offered && d in offered && KeyOf(c) == KeyOf(d) ==> c == d
  }

  ghost predicate CollisionFree(sha256: seq<Byte> -> seq<Byte>, cs: seq<Candidate>)
  {
    forall x, y :: x in cs && y in cs && sha256(KeyBytes(x)) == sha256(KeyBytes(y)) ==> KeyBytes(x) == KeyBytes(y)
  }

  /** With distinct keys and no hash collision, two eligible candidates never tie in the ranking. */
  lemma RankingStrict(a: Auction, cs: seq<Candidate>)
    requires DistinctKeys(cs) && CollisionFree(a.sha256, cs)
    requires forall c :: c in cs ==> |c.selectionDigest| == 32 && c.promptIdx < PROMPT_BOUND
    ensures Orders.AntisymmetricOn(cs, RankOrder(a))
  {
    forall x, y | x in cs && y in cs && RankLe(a, x, y) && RankLe(a, y, x)
      ensures x == y
    {
      Orders.LexAntisymmetric(a.sha256(KeyBytes(x)), a.sha256(KeyBytes(y)));
      KeyBytesInjective(x, y);
      var i :| 0 <= i < |cs| && cs[i] == x;
      var j :| 0 <= j < |cs| && cs[j] == y;
      assert i == j;
    }
  }

  lemma {:induction false} DistinctMultiset(cs: seq<Candidate>)
    requires DistinctKeys(cs)
    ensures multiset(cs) == multiset(Elements(cs))
  {
    if cs == [] {
      assert Elements(cs) == {};
    } else {
      DistinctMultiset(cs[1..]);
      assert cs == [cs[0]] + cs[1..];
      assert cs[0] !in cs[1..];
      assert Elements(cs) == {cs[0]} + Elements(cs[1..]);
    }
  }

  lemma {:induction false} EligibleDistinct(a: Auction, cs: seq<Candidate>)
    requires DistinctKeys(cs)
    ensures DistinctKeys(Eligible(a, cs))
  {
    if cs != [] {
      EligibleDistinct(a, cs[1..]);
      AuctionOptimality.EligibleMembers(a, cs[1..]);
      var rest := Eligible(a, cs[1..]);
      forall j | 0 <= j < |rest|
        ensures KeyOf(rest[j]) != KeyOf(cs[0])
      {
        assert rest[j] in cs[1..];
      }
    }
  }

  lemma ExtractsOffered(p: Platform, archive: Archive, environment: string)
    requires Consistent(p, archive, environment) && forall b :: |p.sha256(b)| == 32
    ensures Elements(Extracted(p, archive, environment)) == Offered(p, archive, environment, Entries(archive))
  {
    ExtractionSound(p, archive, environment, Entries(archive));
    hide FromEntry, FirstOffers, Entries, Offered;
    var cs, offered := Extracted(p, archive, environment), Offered(p, archive, environment, Entries(archive));
    forall c | c in offered
      ensures c in cs
    {
      var d :| d in cs && KeyOf(d) == KeyOf(c);
    }
  }

  /** The selection depends on which entries an archive holds and not on their order, their repetition, or
      their split between `batch` and `runners_up`, as long as entries that share a dedup key agree. */
  lemma SelectionIgnoresArchiveOrder(a: Auction, p: Platform, x: Archive, y: Archive, environment: string)
    requires x.environment == y.environment
    requires forall e :: e in Entries(x) <==> e in Entries(y)
    requires Consistent(p, x, environment) && forall b :: |p.sha256(b)| == 32
    requires CollisionFree(a.sha256, Extracted(p, x, environment))
    ensures Refused(a, Extracted(p, x, environment)) <==> Refused(a, Extracted(p, y, environment))
    ensures !Refused(a, Extracted(p, x, environment)) ==>
              Selection(a, Extracted(p, x, environment)) == Selection(a, Extracted(p, y, environment))
  {
    assert Offered(p, x, environment, Entries(x)) == Offered(p, y, environment, Entries(y)) by {
      hide FromEntry, Entries;
    }
    ExtractsOffered(p, x, environment);
    ExtractsOffered(p, y, environment);
    ExtractionSound(p, x, environment, Entries(x));
    ExtractionSound(p, y, environment, Entries(y));
    hide FromEntry, FirstOffers, Entries, Offered, Refused, Selection;
    var cs, ds := Extracted(p, x, environment), Extracted(p, y, environment);
    assert forall c :: (c in cs <==> c in Elements(cs)) && (c in ds <==> c in Elements(ds));
    SelectionIgnoresOrder(a, cs, ds);
  }

  /** `y` holds the entries of `x`, in any order, with any repetition and any split. */
  ghost predicate Rearranges(x: Archive, y: Archive)
  {
    y.environment == x.environment && forall e :: e in Entries(x) <==> e in Entries(y)
  }

  /** Every arrangement of the entries gives the same candidates. */
  ghost predicate OrderFree(p: Platform, x: Archive, environment: string)
  {
    forall y :: Rearranges(x, y) ==> Elements(Extracted(p, y, environment)) == Elements(Extracted(p, x, environment))
  }

  /** An offer that comes first is extracted. */
  lemma {:induction false} FirstStays(p: Platform, x: Archive, environment: string, entries: seq<Entry>)
    requires entries != [] && Offer(p, x, environment, entries[0]).Some?
    ensures Offer(p, x, environment, entries[0]).value in FirstOffers(p, x, environment, entries)
  {
    hide Offer, HasKey;
    var rest := entries[..|entries| - 1];
    if rest == [] {
      NoKeys();
    } else {
      FirstStays(p, x, environment, rest);
    }
  }

  /** The archive with one of its entries put in front. */
  function InFront(x: Archive, e: Entry): Archive { Archive(x.environment, Some([e] + Entries(x)), None) }

  lemma FrontIsExtracted(p: Platform, x: Archive, environment: string, e: Entry)
    requires e in Entries(x) && Offer(p, x, environment, e).Some?
    ensures Rearranges(x, InFront(x, e))
    ensures Offer(p, x, environment, e).value in Elements(Extracted(p, InFront(x, e), environment))
  {
    var y := InFront(x, e);
    assert Entries(y) == [e] + Entries(x);
    assert Offer(p, y, environment, e) == Offer(p, x, environment, e);
    hide Offer, FirstOffers, Entries;
    FirstStays(p, y, environment, [e] + Entries(x));
  }

  lemma OneOfAKey(cs: seq<Candidate>, c: Candidate, d: Candidate)
    requires DistinctKeys(cs) && c in Elements(cs) && d in Elements(cs) && KeyOf(c) == KeyOf(d)
    ensures c == d
  {
    var i :| 0 <= i < |cs| && cs[i] == c;
    var j :| 0 <= j < |cs| && cs[j] == d;
  }

  /** The candidates of an archive do not depend on the arrangement of its entries exactly when entries that share a
      dedup key describe the same candidate. */
  lemma OrderFreeIff(p: Platform, x: Archive, environment: string)
    requires forall b :: |p.sha256(b)| == 32
    ensures OrderFree(p, x, environment) <==> Consistent(p, x, environment)
  {
    hide FromEntry, Offer, FirstOffers, Entries;
    if Consistent(p, x, environment) {
      forall y | Rearranges(x, y)
        ensures Elements(Extracted(p, y, environment)) == Elements(Extracted(p, x, environment))
      {
        SameOffers(p, x, y, environment);
        hide Offered, Elements, Extracted;
        ExtractsOffered(p, x, environment);
        ExtractsOffered(p, y, environment);
      }
    } else {
      DisagreementShows(p, x, environment);
    }
  }

  lemma SameOffers(p: Platform, x: Archive, y: Archive, environment: string)
    requires Rearranges(x, y)
    ensures Offered(p, x, environment, Entries(x)) == Offered(p, y, environment, Entries(y))
    ensures Consistent(p, x, environment) ==> Consistent(p, y, environment)
  {
    hide FromEntry, Entries;
  }

  lemma DisagreementShows(p: Platform, x: Archive, environment: string)
    requires !Consistent(p, x, environment) && forall b :: |p.sha256(b)| == 32
    ensures !OrderFree(p, x, environment)
  {
    hide FromEntry, Offer, FirstOffers, Entries, DistinctKeys, Elements;
    var offered := Offered(p, x, environment, Entries(x));
    var c, d :| c in offered && d in offered && KeyOf(c) == KeyOf(d) && c != d;
    var e :| e in Entries(x) && Offer(p, x, environment, e) == Some(c);
    var f :| f in Entries(x) && Offer(p, x, environment, f) == Some(d);
    hide Offered, Extracted, Rearranges, InFront;
    FrontIsExtracted(p, x, environment, e);
    FrontIsExtracted(p, x, environment, f);
    var cs, ds := Extracted(p, InFront(x, e), environment), Extracted(p, InFront(x, f), environment);
    ExtractedDistinct(p, InFront(x, e), environment);
    if Elements(cs) == Elements(ds) {
      OneOfAKey(cs, c, d);
    }
  }

  lemma ExtractedDistinct(p: Platform, x: Archive, environment: string)
    requires forall b :: |p.sha256(b)| == 32
    ensures DistinctKeys(Extracted(p, x, environment))
  {
    ExtractionSound(p, x, environment, Entries(x));
  }

  lemma SelectionIgnoresOrder(a: Auction, cs: seq<Candidate>, ds: seq<Candidate>)
    requires DistinctKeys(cs) && DistinctKeys(ds) && forall c :: c in cs <==> c in ds
    requires CollisionFree(a.sha256, cs) && forall c :: c in cs ==> |c.selectionDigest| == 32
    ensures Refused(a, cs) <==> Refused(a, ds)
    ensures !Refused(a, cs) ==> Selection(a, cs) == Selection(a, ds)
  {
    hide Value;
    AuctionOptimality.EligibleMembers(a, cs);
    AuctionOptimality.EligibleMembers(a, ds);
    EligibleDistinct(a, cs);
    EligibleDistinct(a, ds);
    var es, fs := Eligible(a, cs), Eligible(a, ds);
    assert cs == [] <==> ds == [] by {
      if cs != [] { assert cs[0] in ds; }
      if ds != [] { assert ds[0] in cs; }
    }
    if !Refused(a, cs) {
      RankingStrict(a, es);
      DistinctMultiset(es);
      DistinctMultiset(fs);
      assert Elements(es) == Elements(fs);
      AuctionOptimality.RankIsPreorder(a);
      Orders.SortForgetsOrder(es, fs, RankOrder(a));
    }
  }

  /** Agreement is needed: of two entries that share a key and disagree, the earlier one is selected. */
  lemma DisagreeingEntriesTakeOrder(a: Auction, p: Platform, d: Entry, e: Entry, environment: string)
    requires d.Entry? && e.Entry? && d.envName == e.envName == Some(environment)
    requires FromEntry(p, d).Some? && FromEntry(p, e).Some?
    requires var c := FromEntry(p, d).value;
             KeyOf(c) == KeyOf(FromEntry(p, e).value) && Value(a, c) > 0.0 && !Refused(a, [c])
    ensures Selection(a, Extracted(p, Archive("", Some([d, e]), None), environment)) == [FromEntry(p, d).value]
  {
    var x := Archive("", Some([d, e]), None);
    var c := FromEntry(p, d).value;
    assert Entries(x) == [d, e] && [d, e][..1] == [d] && [d][..0] == [];
    assert FirstOffers(p, x, environment, [d]) == [c] by { assert !HasKey([], KeyOf(c)); }
    assert HasKey([c], KeyOf(c)) by { assert c in [c]; }
    assert Extracted(p, x, environment) == [c];
    SingleSelection(a, c);
  }

  /** Two entries with one dedup key and different deviations. */
  function Disagreeing(std: real): Entry
  {
    Entry(Some("env"), RewardStats.StatFields(Some(0.5), Some(std), Some(2), None, None), Some("h"), Some(0), Some(0),
          Some(ZEROS), None, None, false, false, None)
  }

  const ZEROS: seq<Byte> := BigEndian(0, 32)

  function DisagreeingCandidate(std: real): Candidate
  {
    Candidate("h", 0, 0, ZEROS, 0.5, std, 2, None, None, false, false, None)
  }

  lemma DisagreeingOffer(p: Platform, std: real)
    requires 0.0 <= std <= 0.5
    ensures FromEntry(p, Disagreeing(std)) == Some(DisagreeingCandidate(std))
  {
    assert Text.Strip("h") == "h";
  }

  /** Swapping them changes the selection. */
  lemma SwapChangesSelection(p: Platform)
    ensures var a := Auction(0.0, 1, None, None, (base, exponent) => 1.0, bytes => []);
            var one, two := Disagreeing(0.5), Disagreeing(0.25);
            Selection(a, Extracted(p, Archive("", Some([one, two]), None), "env"))
            != Selection(a, Extracted(p, Archive("", Some([two, one]), None), "env"))
  {
    var a := Auction(0.0, 1, None, None, (base, exponent) => 1.0, bytes => []);
    DisagreeingOffer(p, 0.5);
    DisagreeingOffer(p, 0.25);
    DisagreeingWins(a, 0.5);
    DisagreeingWins(a, 0.25);
    hide FromEntry, Refused, Selection, Extracted, Value;
    DisagreeingEntriesTakeOrder(a, p, Disagreeing(0.5), Disagreeing(0.25), "env");
    DisagreeingEntriesTakeOrder(a, p, Disagreeing(0.25), Disagreeing(0.5), "env");
  }

  lemma DisagreeingWins(a: Auction, std: real)
    requires std > 0.0 && a.power(0.5, 0.0) == 1.0 && a.delta == 0.0 && a.batchSize == 1 && a.maxSlots.None?
    ensures var c := DisagreeingCandidate(std); Value(a, c) > 0.0 && !Refused(a, [c])
  {
    var c := DisagreeingCandidate(std);
    assert 1.0 - 0.5 == 0.5;
    AuctionOptimality.EligibleMembers(a, [c]);
  }

  lemma SingleSelection(a: Auction, c: Candidate)
    requires Value(a, c) > 0.0 && !Refused(a, [c])
    ensures Selection(a, [c]) == [c]
  {
    assert Ranked(a, [c]) == [c] by {
      assert [c][1..] == [] && Eligible(a, [c]) == [c] + Eligible(a, []);
      assert Orders.Sort([c], RankOrder(a)) == Orders.Insert(c, [], RankOrder(a)) == [c];
    }
    var rules := RulesOf(a, [c]);
    assert forall op: string :: Held(rules, {}, op) == {};
    assert [c][..0] == [] && Elements(Greedy(rules, [])) == {};
    assert Fits(rules, {}, c);
    assert Greedy(rules, [c]) == Greedy(rules, [c][..0]) + [c];
  }
}
