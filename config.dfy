/**
 * The program's constants (main.go:15-26) and the IndexNow key format that
 * the constants are chosen to satisfy.
 */
module Config {

  /**
   * The 63 characters a key may contain, in the source's order:
   * "abcdefghijklmnopqrstuvwxyzABCDEFGHIJKLMNOPQRSTUVWXYZ0123456789-".
   * It is written as four blocks so that the verifier can index into it.
   */
  const Characters: string :=
    "abcdefghijklmnopqrstuvwxyz" + "ABCDEFGHIJKLMNOPQRSTUVWXYZ" + "0123456789" + "-"

  /** Inclusive bounds on the length of a generated key. */
  const MinKeyLength: nat := 64
  const MaxKeyLength: nat := 96

  /** Directory, relative to the working directory, that receives one file per key. */
  const OutputDir: string := "static"

  /** A character admitted by the IndexNow key format: a-z, A-Z, 0-9 or '-'. */
  predicate IndexNowChar(c: char)
  {
    ('a' <= c <= 'z') || ('A' <= c <= 'Z') || ('0' <= c <= '9') || c == '-'
  }

  /** The IndexNow key format: 8 to 128 characters, each an IndexNowChar. */
  predicate IndexNowKey(k: string)
  {
    8 <= |k| <= 128 && forall i :: 0 <= i < |k| ==> IndexNowChar(k[i])
  }

  /** Every character of `k` is one of `alphabet`. */
  predicate DrawnFrom(k: string, alphabet: string)
  {
    forall i :: 0 <= i < |k| ==> k[i] in alphabet
  }

  /** What the generator promises of every key it returns. */
  predicate ValidKey(k: string)
  {
    MinKeyLength <= |k| <= MaxKeyLength && DrawnFrom(k, Characters)
  }

  lemma AlphabetLength()
    ensures |Characters| == 63
  {
  }

  /** Every position of the alphabet holds an IndexNow character. */
  lemma AlphabetAt(k: int)
    requires 0 <= k < |Characters|
    ensures IndexNowChar(Characters[k])
  {
  }

  /** Every IndexNow character sits at some position of the alphabet. */
  lemma IndexNowCharInAlphabet(c: char)
    requires IndexNowChar(c)
    ensures c in Characters
  {
    var k := if 'a' <= c <= 'z' then c as int - 'a' as int
             else if 'A' <= c <= 'Z' then 26 + (c as int - 'A' as int)
             else if '0' <= c <= '9' then 52 + (c as int - '0' as int)
             else 62;
    assert Characters[k] == c;
  }

  /** The alphabet is exactly the IndexNow character set: nothing missing, nothing extra. */
  lemma AlphabetIsIndexNowCharset(c: char)
    ensures c in Characters <==> IndexNowChar(c)
  {
    if IndexNowChar(c) {
      IndexNowCharInAlphabet(c);
    }
    if c in Characters {
      var k :| 0 <= k < |Characters| && Characters[k] == c;
      AlphabetAt(k);
    }
  }

  /** The length bounds lie inside the format's 8..128, so every valid key is an IndexNow key. */
  lemma ValidKeyIsIndexNowKey(k: string)
    requires ValidKey(k)
    ensures IndexNowKey(k)
  {
    forall i | 0 <= i < |k|
      ensures IndexNowChar(k[i])
    {
      AlphabetIsIndexNowCharset(k[i]);
    }
  }
}
