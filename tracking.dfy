/** The tracking-id scheme of lib/posts-handler.js: a tracking id is
    `<originalId>_<digest>`, where the digest is the SHA-1 hex digest of the
    original id's text followed by the user name. A presented id is kept when
    its second `_`-piece equals the recomputed digest; otherwise a fresh id is
    minted and written to the `tracking_id` cookie for 24 hours. */
module Tracking {
  import opened Wrappers
  import opened Text

  const TrackingIdKey: string := "tracking_id"

  /** 24 hours in milliseconds, the lifetime of a freshly minted cookie. */
  const DayMillis: int := 1000 * 60 * 60 * 24

  /** `Number.MAX_SAFE_INTEGER`; `Math.floor(Math.random() * MAX_SAFE_INTEGER)`
      lies below it. */
  const MaxSafeInteger: nat := 9007199254740991

  predicate IsLowerHexDigit(c: char) { '0' <= c <= '9' || 'a' <= c <= 'f' }

  /** `digest('hex')` of a SHA-1 hash: 40 lowercase hexadecimal characters. */
  type HexDigest = s: string | |s| == 40 && forall i :: 0 <= i < |s| ==> IsLowerHexDigit(s[i])
    witness "0000000000000000000000000000000000000000"

  /** SHA-1 over the UTF-8 text, left uninterpreted: all the model knows of
      it is its output alphabet and length. */
  type Hasher = string -> HexDigest

  lemma DigestHasNoUnderscore(d: HexDigest)
    ensures '_' !in d
  {
    forall i | 0 <= i < |d| ensures d[i] != '_' {
      assert IsLowerHexDigit(d[i]);
    }
  }

  /** `createValidHash`: the digest of the original id's text followed by
      the user name. Being hex, it never holds the `_` that separates the two
      halves of a tracking id. */
  function CreateValidHash(originalId: string, userName: string, hash: Hasher): (r: HexDigest)
    ensures '_' !in r
  {
    DigestHasNoUnderscore(hash(originalId + userName));
    hash(originalId + userName)
  }

  /** `isValidTrackingId`: an absent or empty id is rejected; otherwise the
      second `_`-piece must exist and equal the digest recomputed from the
      first piece and the user name. A valid id therefore holds a `_`. */
  function IsValidTrackingId(trackingId: Option<string>, userName: string, hash: Hasher): (r: bool)
    ensures r ==> trackingId.Some? && !Free(trackingId.value, "_")
  {
    match trackingId
    case None => false
    case Some(t) =>
      t != "" &&
      var splitted := Split(t, "_");
      assert Segment(splitted, 1) == Field(t, "_");
      Segment(splitted, 1) == Some(CreateValidHash(splitted[0], userName, hash))
  }

  /** The id `addTrackingCookie` mints from a random original id:
      `originalId + '_' + createValidHash(originalId, userName)`, where
      JavaScript turns the number into its decimal text. Split at `_`, it
      comes apart into exactly that text and that digest. */
  function MintTrackingId(originalId: nat, userName: string, hash: Hasher): (r: string)
    ensures Split(r, "_") == [Decimal(originalId), CreateValidHash(Decimal(originalId), userName, hash)]
  {
    var text := Decimal(originalId);
    var d := CreateValidHash(text, userName, hash);
    DecimalHasNoSeparator(originalId, '_');
    SplitAfterFreePrefix(text, "_", d);
    FirstCharAbsentFree(d, "_");
    SplitWithoutSeparator(d, "_");
    text + "_" + d
  }

  /** An id that is absent, empty, or has no `_` has no second piece to
      match a digest, so it is never valid. */
  lemma NoSecondPieceNeverValid(trackingId: Option<string>, userName: string, hash: Hasher)
    requires trackingId.None? || '_' !in trackingId.value
    ensures !IsValidTrackingId(trackingId, userName, hash)
  {
    if trackingId.Some? {
      FirstCharAbsentFree(trackingId.value, "_");
    }
  }

  /** The first piece of a minted id parses back to the original id. */
  lemma MintedIdDecodes(originalId: nat, userName: string, hash: Hasher)
    ensures ParseDecimal(Split(MintTrackingId(originalId, userName, hash), "_")[0]) == Some(originalId)
  {
    DecimalRoundTrip(originalId);
  }

  /** Round trip: a minted id validates under the user it was minted for. */
  lemma MintedIdIsValid(originalId: nat, userName: string, hash: Hasher)
    ensures IsValidTrackingId(Some(MintTrackingId(originalId, userName, hash)), userName, hash)
  {
  }

  /** An id minted for one user is accepted for another user exactly when
      the hash collides on two distinct inputs: the original id's text
      followed by either name. */
  lemma MintedIdRejectedForOtherUser(originalId: nat, minter: string, other: string, hash: Hasher)
    requires minter != other
    ensures Decimal(originalId) + minter != Decimal(originalId) + other
    ensures IsValidTrackingId(Some(MintTrackingId(originalId, minter, hash)), other, hash) <==>
      hash(Decimal(originalId) + minter) == hash(Decimal(originalId) + other)
  {
    var prefix := Decimal(originalId);
    assert prefix + minter != prefix + other by {
      assert (prefix + minter)[|prefix|..] == minter;
      assert (prefix + other)[|prefix|..] == other;
    }
  }

  /** The request's cookies together with the cookies the response sets:
      values by name and the expiry time (milliseconds) of each cookie set. */
  class CookieJar {
    var values: map<string, string>
    var expires: map<string, int>

    constructor (presented: map<string, string>)
      ensures values == presented && expires == map[]
    {
      values := presented;
      expires := map[];
    }

    /** `cookies.get(name)`. */
    function Get(name: string): (r: Option<string>)
      reads this
      ensures r.Some? <==> name in values
      ensures r.Some? ==> r.value == values[name]
    {
      if name in values then Some(values[name]) else None
    }

    /** `cookies.set(name, value, { expires })`. */
    method Set(name: string, value: string, expiry: int)
      modifies this
      ensures values == old(values)[name := value]
      ensures expires == old(expires)[name := expiry]
    {
      values := values[name := value];
      expires := expires[name := expiry];
    }
  }

  /** `addTrackingCookie(cookies, userName)`, with the random original id and
      the clock reading `now` (milliseconds) passed in. */
  method AddTrackingCookie(cookies: CookieJar, userName: string, originalId: nat, now: int, hash: Hasher)
    returns (trackingId: string)
    requires originalId < MaxSafeInteger
    modifies cookies
    ensures IsValidTrackingId(Some(trackingId), userName, hash)
    ensures IsValidTrackingId(old(cookies.Get(TrackingIdKey)), userName, hash) ==>
      && trackingId == old(cookies.values[TrackingIdKey])
      && cookies.values == old(cookies.values)
      && cookies.expires == old(cookies.expires)
    ensures !IsValidTrackingId(old(cookies.Get(TrackingIdKey)), userName, hash) ==>
      && trackingId == MintTrackingId(originalId, userName, hash)
      && cookies.values == old(cookies.values)[TrackingIdKey := trackingId]
      && cookies.expires == old(cookies.expires)[TrackingIdKey := now + DayMillis]
  {
    var requestedTrackingId := cookies.Get(TrackingIdKey);
    if IsValidTrackingId(requestedTrackingId, userName, hash) {
      trackingId := requestedTrackingId.value;
    } else {
      var tomorrow := now + DayMillis;
      trackingId := MintTrackingId(originalId, userName, hash);
      MintedIdIsValid(originalId, userName, hash);
      cookies.Set(TrackingIdKey, trackingId, tomorrow);
    }
  }
}
