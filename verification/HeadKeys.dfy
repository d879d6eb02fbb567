/** Text keys: the wire form of a seq line, and the per-user bucket names the
    gateway derives and rewrites. */
module HeadKeys {
  import opened Texts
  import opened Types

  // ---- The wire form of a line ----

  function EncodeHeadKey(bucket: string, origin: string, epoch: nat): string {
    bucket + ['\t'] + (origin + [':'] + Decimal(epoch))
  }

  function DecodeHeadKey(key: string): Option<EpochKey> {
    match SplitFirst(key, '\t')
    case None => None
    case Some((bucket, rest)) =>
      match SplitLast(rest, ':')
      case None => None
      case Some((origin, digits)) =>
        match ParseU32(digits)
        case None => None
        case Some(epoch) => Some(EpochKey(bucket, origin, epoch))
  }

  lemma DigitsParse(epoch: nat)
    requires epoch <= U32_MAX
    ensures ParseU32(Decimal(epoch)) == Some(epoch) && ':' !in Decimal(epoch) && '\t' !in Decimal(epoch)
  {
    DecimalParses(epoch);
    assert Decimal(epoch)[0] != '+';
  }

  /** A line's wire key decodes to the line exactly when its bucket name holds
      no tab, whatever the origin's name. */
  lemma HeadKeyRoundTripIff(bucket: string, origin: string, epoch: nat)
    requires epoch <= U32_MAX
    ensures DecodeHeadKey(EncodeHeadKey(bucket, origin, epoch)) == Some(EpochKey(bucket, origin, epoch))
      <==> '\t' !in bucket
  {
    var rest := origin + [':'] + Decimal(epoch);
    var key := EncodeHeadKey(bucket, origin, epoch);
    if '\t' !in bucket {
      SplitFirstAt(bucket, '\t', rest);
      DigitsParse(epoch);
      SplitLastAt(origin, ':', Decimal(epoch));
    } else {
      SplitFirstIsFree(key, '\t');
    }
  }

  /** So tab-free lines never share a wire key. */
  lemma HeadKeysDiffer(a: EpochKey, b: EpochKey)
    requires a.epoch <= U32_MAX && b.epoch <= U32_MAX && '\t' !in a.bucket && '\t' !in b.bucket
    requires EncodeHeadKey(a.bucket, a.origin, a.epoch) == EncodeHeadKey(b.bucket, b.origin, b.epoch)
    ensures a == b
  {
    HeadKeyRoundTripIff(a.bucket, a.origin, a.epoch);
    HeadKeyRoundTripIff(b.bucket, b.origin, b.epoch);
  }

  // ---- Per-user bucket names ----

  newtype byte = x: int | 0 <= x < 256

  predicate IsNameChar(c: char) {
    'a' <= c <= 'z' || 'A' <= c <= 'Z' || '0' <= c <= '9' || c == '_' || c == '-'
  }

  function Sanitize(s: string): string {
    seq(|s|, i requires 0 <= i < |s| => if IsNameChar(s[i]) then s[i] else '_')
  }

  /** A user id prints as 36 characters that sanitizing leaves alone. */
  predicate IsUserId(id: string) {
    |id| == 36 && forall i :: 0 <= i < |id| ==> IsNameChar(id[i])
  }

  function HexDigit(n: int): char
    requires 0 <= n < 16
  {
    if n < 10 then ('0' as int + n) as char else ('a' as int + (n - 10)) as char
  }

  function HexValue(c: char): Option<int> {
    if '0' <= c <= '9' then Some(c as int - '0' as int)
    else if 'a' <= c <= 'f' then Some(c as int - 'a' as int + 10)
    else if 'A' <= c <= 'F' then Some(c as int - 'A' as int + 10)
    else None
  }

  function HexEncode(bytes: seq<byte>): string {
    if bytes == [] then [] else [HexDigit(bytes[0] as int / 16), HexDigit(bytes[0] as int % 16)] + HexEncode(bytes[1..])
  }

  function HexDecode(s: string): Option<seq<byte>>
    decreases |s|
  {
    if s == [] then Some([])
    else if |s| == 1 then None
    else match (HexValue(s[0]), HexValue(s[1]), HexDecode(s[2..]))
      case (Some(h), Some(l), Some(rest)) =>
        assert 0 <= h < 16 && 0 <= l < 16;
        Some([(h * 16 + l) as byte] + rest)
      case _ => None
  }

  lemma {:induction false} HexRoundTrip(bytes: seq<byte>)
    ensures HexDecode(HexEncode(bytes)) == Some(bytes)
    ensures forall i :: 0 <= i < |HexEncode(bytes)| ==> IsNameChar(HexEncode(bytes)[i])
  {
    if bytes != [] {
      HexRoundTrip(bytes[1..]);
      assert HexEncode(bytes)[2..] == HexEncode(bytes[1..]);
      HexDigitValue(bytes[0] as int / 16);
      HexDigitValue(bytes[0] as int % 16);
      assert [bytes[0]] + bytes[1..] == bytes;
    }
  }

  lemma HexDigitValue(n: int)
    requires 0 <= n < 16
    ensures HexValue(HexDigit(n)) == Some(n) && IsNameChar(HexDigit(n))
  {
  }

  function InternalPrefix(user: string): string {
    "user_" + Sanitize(user) + "__bucket_"
  }

  function InternalBucket(user: string, bucket: seq<byte>): string {
    InternalPrefix(user) + HexEncode(bucket)
  }

  function ExternalBucket(user: string, internal: string): Option<seq<byte>> {
    var prefix := InternalPrefix(user);
    if prefix <= internal then HexDecode(internal[|prefix|..]) else None
  }

  lemma SanitizeIdentity(id: string)
    requires IsUserId(id)
    ensures Sanitize(id) == id
  {
  }

  /** An internal name decodes for its own user and for nobody else. */
  lemma InternalBucketOwner(user: string, other: string, bucket: seq<byte>)
    requires IsUserId(user) && IsUserId(other)
    ensures ExternalBucket(other, InternalBucket(user, bucket)) == if other == user then Some(bucket) else None
  {
    SanitizeIdentity(user);
    SanitizeIdentity(other);
    var internal := InternalBucket(user, bucket);
    var p, q := InternalPrefix(user), InternalPrefix(other);
    assert |p| == |q| && internal[..|p|] == p && internal[|p|..] == HexEncode(bucket);
    HexRoundTrip(bucket);
    if q <= internal {
      assert q == internal[..|q|] == p;
      assert user == p[5..41] && other == q[5..41];
    }
  }

  /** Internal names are plain: no tab, so their wire keys always decode. */
  lemma InternalBucketIsPlain(user: string, bucket: seq<byte>)
    requires IsUserId(user)
    ensures '\t' !in InternalBucket(user, bucket)
    ensures InternalBucket(user, bucket) == "user_" + user + "__bucket_" + HexEncode(bucket)
  {
    SanitizeIdentity(user);
    HexRoundTrip(bucket);
    assert forall i :: 0 <= i < |user| ==> user[i] != '\t';
  }

  // ---- Rewriting keys for a user ----

  /** The bytes of a name as text. */
  function Text(bytes: seq<byte>): string {
    seq(|bytes|, i requires 0 <= i < |bytes| => bytes[i] as int as char)
  }

  lemma TextInjective(a: seq<byte>, b: seq<byte>)
    requires Text(a) == Text(b)
    ensures a == b
  {
    assert |a| == |Text(a)| && |b| == |Text(b)|;
    forall i | 0 <= i < |a|
      ensures a[i] == b[i]
    {
      assert Text(a)[i] == Text(b)[i];
    }
  }

  /** The wire key under the user's own bucket name, if the bucket is this user's. */
  function RewriteKey(user: string, key: string): Option<string> {
    match SplitFirst(key, '\t')
    case None => None
    case Some((internal, rest)) =>
      match ExternalBucket(user, internal)
      case None => None
      case Some(external) => Some(Text(external) + ['\t'] + rest)
  }

  /** A user's own line keeps its identity through the rewrite; other users'
      lines disappear. */
  lemma RewriteKeepsOwn(user: string, owner: string, bucket: seq<byte>, origin: string, epoch: nat)
    requires IsUserId(user) && IsUserId(owner)
    ensures RewriteKey(user, EncodeHeadKey(InternalBucket(owner, bucket), origin, epoch)) ==
      if user == owner then Some(EncodeHeadKey(Text(bucket), origin, epoch)) else None
  {
    InternalBucketIsPlain(owner, bucket);
    SplitFirstAt(InternalBucket(owner, bucket), '\t', origin + [':'] + Decimal(epoch));
    InternalBucketOwner(owner, user, bucket);
  }

  /** Two wire keys of a user's buckets that rewrite alike are one key, however
      many tabs the user put into bucket names, as long as node ids have none. */
  lemma RewriteNeverCollides(user: string, a: seq<byte>, aOrigin: string, aEpoch: nat, b: seq<byte>, bOrigin: string,
                             bEpoch: nat)
    requires IsUserId(user) && aEpoch <= U32_MAX && bEpoch <= U32_MAX && '\t' !in aOrigin && '\t' !in bOrigin
    requires RewriteKey(user, EncodeHeadKey(InternalBucket(user, a), aOrigin, aEpoch))
      == RewriteKey(user, EncodeHeadKey(InternalBucket(user, b), bOrigin, bEpoch))
    ensures a == b && aOrigin == bOrigin && aEpoch == bEpoch
  {
    RewriteKeepsOwn(user, user, a, aOrigin, aEpoch);
    RewriteKeepsOwn(user, user, b, bOrigin, bEpoch);
    DigitsParse(aEpoch);
    DigitsParse(bEpoch);
    SplitLastAt(Text(a), '\t', aOrigin + [':'] + Decimal(aEpoch));
    SplitLastAt(Text(b), '\t', bOrigin + [':'] + Decimal(bEpoch));
    TextInjective(a, b);
    SplitLastAt(aOrigin, ':', Decimal(aEpoch));
    SplitLastAt(bOrigin, ':', Decimal(bEpoch));
  }

  /** The keys of the map are wire keys of gateway-made buckets. */
  ghost predicate GatewayKeys(heads: map<string, nat>) {
    forall k :: k in heads ==> exists owner, bucket, origin, epoch: nat :: IsGatewayKey(k, owner, bucket, origin, epoch)
  }

  predicate IsGatewayKey(key: string, owner: string, bucket: seq<byte>, origin: string, epoch: nat) {
    IsUserId(owner) && epoch <= U32_MAX && '\t' !in origin && key == EncodeHeadKey(InternalBucket(owner, bucket), origin, epoch)
  }

  lemma RewriteInjective(user: string, heads: map<string, nat>, j: string, k: string)
    requires IsUserId(user) && GatewayKeys(heads) && j in heads && k in heads
    requires RewriteKey(user, j).Some? && RewriteKey(user, j) == RewriteKey(user, k)
    ensures j == k
  {
    var jOwner, jBucket, jOrigin, jEpoch: nat :| IsGatewayKey(j, jOwner, jBucket, jOrigin, jEpoch);
    var kOwner, kBucket, kOrigin, kEpoch: nat :| IsGatewayKey(k, kOwner, kBucket, kOrigin, kEpoch);
    RewriteKeepsOwn(user, jOwner, jBucket, jOrigin, jEpoch);
    RewriteKeepsOwn(user, kOwner, kBucket, kOrigin, kEpoch);
    RewriteNeverCollides(user, jBucket, jOrigin, jEpoch, kBucket, kOrigin, kEpoch);
  }

  /** The key that is inserted last, in key order, of those that rewrite alike. */
  ghost predicate IsLastOf(user: string, keys: set<string>, k: string) {
    && k in keys && RewriteKey(user, k).Some?
    && forall j :: j in keys && RewriteKey(user, j) == RewriteKey(user, k) ==> j == k || LexLess(j, k)
  }

  predicate IsLeastKey(keys: set<string>, k: string) {
    k in keys && forall j :: j in keys ==> j == k || LexLess(k, j)
  }

  lemma {:induction false} LeastKey(keys: set<string>)
    requires keys != {}
    ensures exists k :: IsLeastKey(keys, k)
    decreases |keys|
  {
    hide LexLess;
    var x :| x in keys;
    if keys == {x} {
      assert IsLeastKey(keys, x);
    } else {
      LeastKey(keys - {x});
      var y :| IsLeastKey(keys - {x}, y);
      LexTotal(x, y);
      if LexLess(x, y) {
        forall j | j in keys && j != x
          ensures LexLess(x, j)
        {
          if j != y {
            LexTransitive(x, y, j);
          }
        }
        assert IsLeastKey(keys, x);
      } else {
        assert IsLeastKey(keys, y);
      }
    }
  }

  /** Gateway-made keys never meet, so each is the last of its kind. */
  lemma GatewayKeysAreLast(user: string, heads: map<string, nat>)
    requires IsUserId(user) && GatewayKeys(heads)
    ensures forall k :: k in heads && RewriteKey(user, k).Some? ==> IsLastOf(user, heads.Keys, k)
  {
    hide RewriteKey, GatewayKeys, LexLess;
    forall j, k | j in heads && k in heads && RewriteKey(user, j).Some? && RewriteKey(user, j) == RewriteKey(user, k)
      ensures j == k
    {
      RewriteInjective(user, heads, j, k);
    }
  }

  /** One more key, greater than those before, takes over its rewritten name. */
  lemma LastOfMore(user: string, keys: set<string>, k: string)
    requires k !in keys && forall j :: j in keys ==> LexLess(j, k)
    ensures forall i :: IsLastOf(user, keys + {k}, i) <==>
      if i == k then RewriteKey(user, k).Some? else IsLastOf(user, keys, i) && RewriteKey(user, i) != RewriteKey(user, k)
  {
    hide RewriteKey, LexLess;
    forall i | i in keys
      ensures !LexLess(k, i)
    {
      LexTotal(i, k);
    }
  }

  ghost predicate NamesOf(user: string, done: set<string>, out: map<string, nat>) {
    forall x :: x in out <==> exists k :: k in done && RewriteKey(user, k) == Some(x)
  }

  ghost predicate LastValues(user: string, heads: map<string, nat>, done: set<string>, out: map<string, nat>) {
    forall k :: IsLastOf(user, done, k) ==>
      k in heads && RewriteKey(user, k).value in out && out[RewriteKey(user, k).value] == heads[k]
  }

  /** What the map holds once the given keys are rewritten. */
  ghost predicate Rewritten(user: string, heads: map<string, nat>, done: set<string>, out: map<string, nat>) {
    NamesOf(user, done, out) && LastValues(user, heads, done, out)
  }

  lemma NamesMore(user: string, done: set<string>, out: map<string, nat>, k: string, value: nat)
    requires NamesOf(user, done, out)
    ensures RewriteKey(user, k).None? ==> NamesOf(user, done + {k}, out)
    ensures RewriteKey(user, k).Some? ==> NamesOf(user, done + {k}, out[RewriteKey(user, k).value := value])
  {
    hide RewriteKey;
    var out' := if RewriteKey(user, k).Some? then out[RewriteKey(user, k).value := value] else out;
    assert k in done + {k};
    forall x | x in out'
      ensures exists j :: j in done + {k} && RewriteKey(user, j) == Some(x)
    {
      if x in out {
        var j :| j in done && RewriteKey(user, j) == Some(x);
        assert j in done + {k};
      }
    }
    forall j | j in done && RewriteKey(user, j).Some?
      ensures RewriteKey(user, j).value in out
    {
      assert RewriteKey(user, j) == Some(RewriteKey(user, j).value);
    }
  }

  lemma RewrittenMore(user: string, heads: map<string, nat>, done: set<string>, out: map<string, nat>, k: string)
    requires Rewritten(user, heads, done, out) && k in heads && k !in done && forall j :: j in done ==> LexLess(j, k)
    ensures RewriteKey(user, k).None? ==> Rewritten(user, heads, done + {k}, out)
    ensures RewriteKey(user, k).Some? ==> Rewritten(user, heads, done + {k}, out[RewriteKey(user, k).value := heads[k]])
  {
    NamesMore(user, done, out, k, heads[k]);
    LastOfMore(user, done, k);
    var out' := if RewriteKey(user, k).Some? then out[RewriteKey(user, k).value := heads[k]] else out;
    hide RewriteKey, LexLess, NamesOf;
    forall i | IsLastOf(user, done + {k}, i)
      ensures i in heads && RewriteKey(user, i).Some? && RewriteKey(user, i).value in out'
      ensures out'[RewriteKey(user, i).value] == heads[i]
    {
      assert i != k ==> IsLastOf(user, done, i);
    }
  }

  /** `rewrite_bucket_keys`, in key order: this user's entries of any map, each
      under its own name. Keys that do not decode are skipped; of several that
      rewrite alike the last one stays, but gateway-made keys never do. */
  method RewriteBucketKeys(user: string, heads: map<string, nat>) returns (out: map<string, nat>)
    requires IsUserId(user)
    ensures forall x :: x in out <==> exists k :: k in heads && RewriteKey(user, k) == Some(x)
    ensures forall k :: IsLastOf(user, heads.Keys, k) ==> out[RewriteKey(user, k).value] == heads[k]
    ensures GatewayKeys(heads) ==>
      forall k :: k in heads && RewriteKey(user, k).Some? ==> out[RewriteKey(user, k).value] == heads[k]
  {
    hide RewriteKey, GatewayKeys, LexLess;
    out := map[];
    var left := heads.Keys;
    ghost var done: set<string> := {};
    assert Rewritten(user, heads, done, out);
    while left != {}
      invariant left <= heads.Keys && done == heads.Keys - left
      invariant forall j, k :: j in done && k in left ==> LexLess(j, k)
      invariant Rewritten(user, heads, done, out)
      decreases |left|
    {
      hide Rewritten;
      LeastKey(left);
      var k :| IsLeastKey(left, k);
      RewrittenMore(user, heads, done, out, k);
      left := left - {k};
      done := done + {k};
      var rewritten := RewriteKey(user, k);
      if rewritten.Some? {
        out := out[rewritten.value := heads[k]];
      }
    }
    assert done == heads.Keys;
    if GatewayKeys(heads) {
      GatewayKeysAreLast(user, heads);
    }
  }
}
