/**
 * Key generation (generateSecureKey, main.go:121-144) over an explicit
 * random source. The source is the sequence of reads the generator makes
 * from crypto/rand's reader: each read yields a byte or fails, and an
 * exhausted sequence is a failed read.
 */
module KeyGen {
  import opened Wrappers
  import opened Config

  newtype byte = x: int | 0 <= x < 256

  /** One read from the random source. */
  datatype Draw = ReadFailed | ReadByte(b: byte)

  /** Why a key could not be generated. */
  datatype KeyError = LengthDrawFailed | CharDrawFailed

  /** A draw of a bounded integer, with the reads left over. */
  datatype IntDraw = IntDraw(value: Option<nat>, rest: seq<Draw>)

  /** A generated key in the source's (key, error) form, with the reads left over. */
  datatype KeyDraw = KeyDraw(key: string, err: Option<KeyError>, rest: seq<Draw>)

  /** `rest` is what remains of `src` after some reads. */
  predicate IsSuffix(rest: seq<Draw>, src: seq<Draw>)
  {
    |rest| <= |src| && rest == src[|src| - |rest|..]
  }

  /** A suffix of a suffix of `src` is a suffix of `src`. */
  lemma SuffixTransitive(src: seq<Draw>, mid: seq<Draw>, rest: seq<Draw>)
    requires IsSuffix(mid, src) && IsSuffix(rest, mid)
    ensures IsSuffix(rest, src)
  {
    assert src[|src| - |mid|..][|mid| - |rest|..] == src[|src| - |rest|..];
  }

  /** The number of failed reads in `s`. */
  function FailedReads(s: seq<Draw>): nat
  {
    if s == [] then 0 else (if s[0].ReadFailed? then 1 else 0) + FailedReads(s[1..])
  }

  /**
   * For a suffix `rest` of `src`, the reads consumed in between all returned
   * a byte exactly when `rest` holds as many failed reads as `src`.
   */
  lemma {:induction false} FailedReadsConsumed(src: seq<Draw>, rest: seq<Draw>)
    requires IsSuffix(rest, src)
    ensures FailedReads(rest) <= FailedReads(src)
    ensures FailedReads(rest) == FailedReads(src) <==> forall j :: 0 <= j < |src| - |rest| ==> src[j].ReadByte?
    decreases |src|
  {
    if |rest| < |src| {
      assert src[1..][|src| - 1 - |rest|..] == rest;
      FailedReadsConsumed(src[1..], rest);
      assert forall j :: 0 <= j < |src| - 1 - |rest| ==> src[1..][j] == src[j + 1];
    } else {
      assert rest == src;
    }
  }

  /**
   * crypto/rand.Int(rand.Reader, max) for 32 < max <= 64, the two bounds the
   * generator uses (33 and 63). Then max - 1 has bit length 6, so each
   * candidate is one byte with its top two bits masked off; a candidate at
   * or above max is discarded and another byte read. A failed read ends the
   * draw with an error. A value is returned only if no failed read was
   * consumed; no value means a failed read was consumed or the source ran out.
   */
  function RandInt(src: seq<Draw>, max: nat): (r: IntDraw)
    requires 32 < max <= 64
    ensures IsSuffix(r.rest, src)
    ensures r.value.Some? ==> r.value.value < max
    ensures r.value.Some? ==> |r.rest| < |src| && FailedReads(r.rest) == FailedReads(src)
    ensures r.value.None? ==> r.rest == [] || FailedReads(r.rest) < FailedReads(src)
    decreases |src|
  {
    if src == [] then IntDraw(None, [])
    else
      match src[0]
      case ReadFailed => IntDraw(None, src[1..])
      case ReadByte(b) =>
        var candidate := b as int % 64;
        if candidate < max then IntDraw(Some(candidate), src[1..])
        else
          var r := RandInt(src[1..], max);
          SuffixTransitive(src, src[1..], r.rest);
          r
  }

  /** An alphabet from which RandInt can draw an index: 33 to 64 characters. */
  predicate DrawableAlphabet(alphabet: string)
  {
    32 < |alphabet| <= 64
  }

  /**
   * Draws `remaining` more characters of `alphabet` after `acc`, one index
   * per position; a failed draw discards everything drawn so far.
   */
  function FillKey(alphabet: string, src: seq<Draw>, acc: string, remaining: nat): KeyDraw
    requires DrawableAlphabet(alphabet)
    decreases remaining
  {
    if remaining == 0 then KeyDraw(acc, None, src)
    else
      var d := RandInt(src, |alphabet|);
      if d.value.None? then KeyDraw("", Some(CharDrawFailed), d.rest)
      else FillKey(alphabet, d.rest, acc + [alphabet[d.value.value]], remaining - 1)
  }

  /** The key generateSecureKey returns for the reads `src`. */
  function SecureKey(src: seq<Draw>): KeyDraw
  {
    AlphabetLength();
    var d := RandInt(src, MaxKeyLength - MinKeyLength + 1);
    if d.value.None? then KeyDraw("", Some(LengthDrawFailed), d.rest)
    else FillKey(Characters, d.rest, [], MinKeyLength + d.value.value)
  }

  lemma {:induction false} FillKeySuffix(alphabet: string, src: seq<Draw>, acc: string, remaining: nat)
    requires DrawableAlphabet(alphabet)
    ensures IsSuffix(FillKey(alphabet, src, acc, remaining).rest, src)
    decreases remaining
  {
    if remaining > 0 {
      var d := RandInt(src, |alphabet|);
      if d.value.Some? {
        var acc' := acc + [alphabet[d.value.value]];
        FillKeySuffix(alphabet, d.rest, acc', remaining - 1);
        SuffixTransitive(src, d.rest, FillKey(alphabet, d.rest, acc', remaining - 1).rest);
      }
    }
  }

  /** FillKey yields `remaining` more characters of the alphabet, or the empty string and an error. */
  lemma {:induction false} FillKeyResult(alphabet: string, src: seq<Draw>, acc: string, remaining: nat)
    requires DrawableAlphabet(alphabet) && DrawnFrom(acc, alphabet)
    ensures var r := FillKey(alphabet, src, acc, remaining);
      && (r.err.None? ==> |r.key| == |acc| + remaining && DrawnFrom(r.key, alphabet))
      && (r.err.Some? ==> r.key == [] && r.err == Some(CharDrawFailed))
    decreases remaining
  {
    if remaining > 0 {
      var d := RandInt(src, |alphabet|);
      if d.value.Some? {
        FillKeyResult(alphabet, d.rest, acc + [alphabet[d.value.value]], remaining - 1);
      }
    }
  }

  /**
   * FillKey succeeds only if it consumed no failed read, and fails only
   * after consuming one or exhausting the source.
   */
  lemma {:induction false} FillKeyReads(alphabet: string, src: seq<Draw>, acc: string, remaining: nat)
    requires DrawableAlphabet(alphabet)
    ensures var r := FillKey(alphabet, src, acc, remaining);
      && (r.err.None? ==> FailedReads(r.rest) == FailedReads(src))
      && (r.err.Some? ==> r.rest == [] || FailedReads(r.rest) < FailedReads(src))
    decreases remaining
  {
    if remaining > 0 {
      var d := RandInt(src, |alphabet|);
      if d.value.Some? {
        FillKeyReads(alphabet, d.rest, acc + [alphabet[d.value.value]], remaining - 1);
      }
    }
  }

  /** A key that is returned has 64 to 96 characters, all from the alphabet. */
  lemma SecureKeyIsValid(src: seq<Draw>)
    ensures SecureKey(src).err.None? ==> ValidKey(SecureKey(src).key)
  {
    AlphabetLength();
    var d := RandInt(src, MaxKeyLength - MinKeyLength + 1);
    if d.value.Some? {
      var n := MinKeyLength + d.value.value;
      var r := FillKey(Characters, d.rest, [], n);
      assert SecureKey(src) == r;
      FillKeyResult(Characters, d.rest, [], n);
      assert r.err.None? ==> |r.key| == n && DrawnFrom(r.key, Characters);
    }
  }

  /** Generated keys meet the IndexNow format: 8 to 128 characters from a-z A-Z 0-9 -. */
  lemma SecureKeyIsIndexNowKey(src: seq<Draw>)
    ensures SecureKey(src).err.None? ==> IndexNowKey(SecureKey(src).key)
  {
    SecureKeyIsValid(src);
    if SecureKey(src).err.None? {
      ValidKeyIsIndexNowKey(SecureKey(src).key);
    }
  }

  /**
   * A failed read among those the generator consumes yields an error and the
   * empty string, never a partial key; conversely an error arises only from
   * a consumed failed read or an exhausted source.
   */
  lemma SecureKeyFailure(src: seq<Draw>)
    ensures var r := SecureKey(src);
      && IsSuffix(r.rest, src)
      && (FailedReads(r.rest) != FailedReads(src) ==> r.err.Some? && r.key == [])
      && (r.err.Some? ==> r.key == [] && (r.rest == [] || FailedReads(r.rest) < FailedReads(src)))
  {
    AlphabetLength();
    var d := RandInt(src, MaxKeyLength - MinKeyLength + 1);
    if d.value.Some? {
      var n := MinKeyLength + d.value.value;
      var r := FillKey(Characters, d.rest, [], n);
      assert SecureKey(src) == r;
      FillKeySuffix(Characters, d.rest, [], n);
      FillKeyReads(Characters, d.rest, [], n);
      FillKeyResult(Characters, d.rest, [], n);
      SuffixTransitive(src, d.rest, r.rest);
    }
  }

  /** A failed read among those consumed is enough to make generation fail with no key. */
  lemma SecureKeyFailsOnFailedRead(src: seq<Draw>, j: nat)
    requires j < |src| - |SecureKey(src).rest| && src[j].ReadFailed?
    ensures SecureKey(src).err.Some? && SecureKey(src).key == []
  {
    SecureKeyFailure(src);
    FailedReadsConsumed(src, SecureKey(src).rest);
  }

  /** Position of `c` in `s`. */
  function IndexOf(s: string, c: char): (k: nat)
    requires c in s
    ensures k < |s| && s[k] == c
  {
    if s[0] == c then 0 else 1 + IndexOf(s[1..], c)
  }

  /** A first byte below the bound is taken as the drawn value. */
  lemma RandIntTakesInRangeByte(b: byte, rest: seq<Draw>, max: nat)
    requires 32 < max <= 64 && (b as int) < max
    ensures RandInt([ReadByte(b)] + rest, max) == IntDraw(Some(b as int), rest)
  {
    assert ([ReadByte(b)] + rest)[1..] == rest;
  }

  /** Reads that make FillKey draw the characters of `k`, in order, followed by `rest`. */
  function CharDraws(alphabet: string, k: string, rest: seq<Draw>): seq<Draw>
    requires DrawableAlphabet(alphabet) && DrawnFrom(k, alphabet)
  {
    if k == [] then rest
    else [ReadByte(IndexOf(alphabet, k[0]) as byte)] + CharDraws(alphabet, k[1..], rest)
  }

  /** Reads that make the generator return `k`, followed by `rest`. */
  function KeyDraws(k: string, rest: seq<Draw>): seq<Draw>
    requires ValidKey(k)
  {
    AlphabetLength();
    [ReadByte((|k| - MinKeyLength) as byte)] + CharDraws(Characters, k, rest)
  }

  /** Drawing index `i` first appends the i-th character of the alphabet. */
  lemma FillKeyStep(alphabet: string, i: nat, rest: seq<Draw>, acc: string, remaining: nat)
    requires DrawableAlphabet(alphabet) && i < |alphabet|
    ensures FillKey(alphabet, [ReadByte(i as byte)] + rest, acc, remaining + 1)
         == FillKey(alphabet, rest, acc + [alphabet[i]], remaining)
  {
    RandIntTakesInRangeByte(i as byte, rest, |alphabet|);
  }

  /** Replaying the reads CharDraws builds makes FillKey append exactly `k`. */
  lemma {:induction false} FillKeyReplays(alphabet: string, acc: string, k: string, rest: seq<Draw>)
    requires DrawableAlphabet(alphabet) && DrawnFrom(k, alphabet)
    ensures FillKey(alphabet, CharDraws(alphabet, k, rest), acc, |k|) == KeyDraw(acc + k, None, rest)
    decreases |k|
  {
    if k != [] {
      var i := IndexOf(alphabet, k[0]);
      FillKeyStep(alphabet, i, CharDraws(alphabet, k[1..], rest), acc, |k| - 1);
      FillKeyReplays(alphabet, acc + [k[0]], k[1..], rest);
      assert acc + [k[0]] + k[1..] == acc + k;
    }
  }

  /** A first byte below 33 fixes the key's length at 64 plus that byte. */
  lemma SecureKeyLengthByte(b: byte, tail: seq<Draw>)
    requires (b as int) < MaxKeyLength - MinKeyLength + 1
    ensures SecureKey([ReadByte(b)] + tail) == FillKey(Characters, tail, [], MinKeyLength + b as int)
  {
    RandIntTakesInRangeByte(b, tail, MaxKeyLength - MinKeyLength + 1);
  }

  /** Every valid key is a possible output: the generator's range is exactly ValidKey. */
  lemma SecureKeyReachesEveryValidKey(k: string, rest: seq<Draw>)
    requires ValidKey(k)
    ensures SecureKey(KeyDraws(k, rest)) == KeyDraw(k, None, rest)
  {
    AlphabetLength();
    var tail := CharDraws(Characters, k, rest);
    SecureKeyLengthByte((|k| - MinKeyLength) as byte, tail);
    FillKeyReplays(Characters, [], k, rest);
    assert [] + k == k;
  }

  /**
   * The buffer-filling loop of generateSecureKey: draws `keyLength` indices
   * into `alphabet` and stores each character in place in a new buffer.
   */
  method FillBuffer(alphabet: string, src: seq<Draw>, keyLength: nat) returns (key: string, err: Option<KeyError>, rest: seq<Draw>)
    requires DrawableAlphabet(alphabet)
    ensures KeyDraw(key, err, rest) == FillKey(alphabet, src, [], keyLength)
  {
    var buffer := new char[keyLength];
    var cur := src;
    for i := 0 to keyLength
      invariant FillKey(alphabet, src, [], keyLength) == FillKey(alphabet, cur, buffer[..i], keyLength - i)
    {
      var d := RandInt(cur, |alphabet|);
      if d.value.None? {
        return [], Some(CharDrawFailed), d.rest;
      }
      buffer[i] := alphabet[d.value.value];
      assert buffer[..i + 1] == buffer[..i] + [alphabet[d.value.value]];
      cur := d.rest;
    }
    key, err, rest := buffer[..], None, cur;
  }

  /**
   * generateSecureKey: draws the length, then fills a buffer of that many
   * characters, one alphabet index per position.
   */
  method GenerateSecureKey(src: seq<Draw>) returns (key: string, err: Option<KeyError>, rest: seq<Draw>)
    ensures KeyDraw(key, err, rest) == SecureKey(src)
    ensures err.None? ==> ValidKey(key)
    ensures err.Some? ==> key == []
  {
    AlphabetLength();
    var lengthDraw := RandInt(src, MaxKeyLength - MinKeyLength + 1);
    if lengthDraw.value.None? {
      return [], Some(LengthDrawFailed), lengthDraw.rest;
    }
    key, err, rest := FillBuffer(Characters, lengthDraw.rest, MinKeyLength + lengthDraw.value.value);
    SecureKeyIsValid(src);
    SecureKeyFailure(src);
  }
}
