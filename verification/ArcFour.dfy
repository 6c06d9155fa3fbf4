/** The ArcFour generator as a trace of its array, and what lib/arc.c makes of a text, said without the
    functions of `Arc`. */
module ArcFour {
  import opened Bytes

  /** Two elements have changed places. */
  predicate Exchanged(s: seq<octet>, t: seq<octet>, a: nat, b: nat) {
    && |s| == |t| == 256 && a < 256 && b < 256 && t[a] == s[b] && t[b] == s[a]
    && forall k :: 0 <= k < 256 && k != a && k != b ==> t[k] == s[k]
  }

  /** The arrays and the values of j during the key setup. */
  ghost predicate Setup(key: seq<octet>, ss: seq<seq<octet>>, js: seq<octet>)
    requires key != []
  {
    && |ss| == |js| == 257 && (forall t :: 0 <= t <= 256 ==> |ss[t]| == 256)
    && js[0] == 0 && (forall k :: 0 <= k < 256 ==> ss[0][k] == k)
    && forall t :: 0 <= t < 256 ==>
         js[t + 1] == (js[t] as int + ss[t][t] + key[t % |key|]) % 256 && Exchanged(ss[t], ss[t + 1], t, js[t + 1])
  }

  /** The same while bytes are taken; i counts them. */
  ghost predicate Turns(start: seq<octet>, ss: seq<seq<octet>>, js: seq<octet>)
  {
    && |ss| == |js| > 0 && (forall t :: 0 <= t < |ss| ==> |ss[t]| == 256)
    && js[0] == 0 && ss[0] == start
    && forall t :: 0 <= t < |ss| - 1 ==>
         && js[t + 1] == (js[t] as int + ss[t][(t + 1) % 256]) % 256
         && Exchanged(ss[t], ss[t + 1], (t + 1) % 256, js[t + 1])
  }

  /** The bytes that the generator gives for a key. */
  ghost predicate Keystream(key: seq<octet>, out: seq<octet>)
    requires key != []
  {
    exists ss, js, ts, ks ::
      && Setup(key, ss, js) && Turns(ss[256], ts, ks) && |ts| == |out| + 1
      && forall t :: 0 <= t < |out| ==>
           var s := ts[t + 1]; out[t] == s[(s[(t + 1) % 256] as int + s[ks[t + 1]]) % 256]
  }

  /** The key is made of the bytes of the password and those of the IV. */
  predicate KeyBytes(password: seq<byte>, iv: seq<byte>, key: seq<octet>) {
    && |key| == |password| + |iv|
    && (forall k :: 0 <= k < |password| ==> key[k] == password[k] as int)
    && (forall k :: 0 <= k < |iv| ==> key[|password| + k] == iv[k] as int)
  }

  /** Each byte is added to that of the stream 1024 places on. */
  ghost predicate Enciphered(password: seq<byte>, iv: seq<byte>, text: seq<byte>, cipher: seq<byte>) {
    exists key, out ::
      && key != [] && KeyBytes(password, iv, key) && Keystream(key, out)
      && |out| == 1024 + |text| && |cipher| == |text|
      && forall k :: 0 <= k < |text| ==> cipher[k] == text[k] ^ (out[1024 + k] as byte)
  }
}
