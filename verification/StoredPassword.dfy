/** Account passwords in the settings file (storage_xml.c): encrypted with the user's password,
    padded to multiples of twelve, and written in base64. */
module StoredPassword {
  import Arc
  import ArcFour
  import Base64
  import opened Bytes
  import opened Options

  const PAD_TO := 12

  function FillerLen(pass: seq<byte>): nat {
    if Arc.PadLen(|pass|, PAD_TO) > 0 then Arc.PadLen(|pass|, PAD_TO) - 1 else 0
  }

  function Saved(pass: seq<byte>, master: seq<byte>, iv: seq<byte>, filler: seq<byte>): seq<byte>
    requires |iv| == Arc.IV_LEN && |filler| == FillerLen(pass)
  {
    Base64.Encoded(Arc.Encoded(Arc.Padded(pass, PAD_TO, filler), master, iv))
  }

  /** What is stored, in bytes: the IV and behind it the padded password, enciphered with the master
      password, in base64. */
  ghost predicate Sealed(pass: seq<byte>, master: seq<byte>, iv: seq<byte>, filler: seq<byte>, text: seq<byte>) {
    exists clear, crypt ::
      && Arc.PaddedTo(pass, 12, filler, clear)
      && ArcFour.Enciphered(master, iv, clear, crypt)
      && Base64.Rfc4648(iv + crypt, text)
  }

  lemma SavedIs(pass: seq<byte>, master: seq<byte>, iv: seq<byte>, filler: seq<byte>)
    requires |iv| == Arc.IV_LEN && |filler| == FillerLen(pass)
    ensures Sealed(pass, master, iv, filler, Saved(pass, master, iv, filler))
  {
    var clear := Arc.Padded(pass, PAD_TO, filler);
    var crypt := Arc.Encoded(clear, master, iv);
    Arc.EncodedBytes(pass, master, 12, iv, filler);
    Base64.EncodedIsRfc4648(crypt);
    hide Arc.PaddedTo, ArcFour.Enciphered, Base64.Rfc4648, Arc.Encoded, Arc.Padded, Base64.Encoded;
    assert crypt == iv + crypt[6..];
  }

  /** What the parser of the settings file makes of the attribute. */
  function Loaded(text: seq<byte>, master: seq<byte>, signed: bool): Option<seq<byte>> {
    var crypt := Base64.Decoded(text, signed);
    if crypt == [] then None
    else
      match Arc.Decoded(crypt, master)
      case None => None
      case Some(clear) => Some(Arc.CString(clear))
  }

  /** Every password without zero bytes is read back as it was, whatever random bytes were used. */
  lemma RoundTrip(pass: seq<byte>, master: seq<byte>, iv: seq<byte>, filler: seq<byte>, signed: bool)
    requires Arc.NulFree(pass) && |iv| == Arc.IV_LEN && |filler| == FillerLen(pass)
    ensures Loaded(Saved(pass, master, iv, filler), master, signed) == Some(pass)
  {
    var crypt := Arc.Encoded(Arc.Padded(pass, PAD_TO, filler), master, iv);
    Base64.DecodeEncode(crypt, signed);
    Arc.PasswordRoundTrip(pass, master, PAD_TO, filler, iv);
    Arc.EncodedLen(Arc.Padded(pass, PAD_TO, filler), master, iv);
  }

  /** The writer of the account elements. */
  method Save(pass: seq<byte>, master: seq<byte>, iv: seq<byte>, filler: seq<byte>) returns (text: array<byte>)
    requires |iv| == Arc.IV_LEN && |filler| == FillerLen(pass)
    ensures text[..] == Saved(pass, master, iv, filler) + [0]
    ensures text.Length > 0 && Sealed(pass, master, iv, filler, text[..text.Length - 1])
  {
    hide Sealed;
    SavedIs(pass, master, iv, filler);
    var crypt := Arc.Encode(pass, master, PAD_TO, iv, filler);
    text := Base64.Encode(crypt[..]);
    assert text[..text.Length - 1] == Saved(pass, master, iv, filler);
  }

  /** The reader of the account elements; the result is the password as a C string. */
  method Load(text: seq<byte>, master: seq<byte>, signed: bool) returns (r: Option<seq<byte>>)
    ensures r == Loaded(text, master, signed)
    ensures r.None? <==> |Base64.Decoded(text, signed)| < 6
  {
    var n, crypt := Base64.Decode(text, signed);
    if n == 0 {
      return None;
    }
    var k, clear := Arc.Decode(crypt[..n], master);
    assert crypt[..n] == Base64.Decoded(text, signed);
    if k == -1 {
      return None;
    }
    Terminated(clear[..k]);
    assert clear[..] == clear[..k] + [0];
    r := Some(Arc.CString(clear[..]));
  }

  /** The zero byte behind the text does not belong to it. */
  lemma {:induction false} Terminated(s: seq<byte>)
    ensures Arc.CString(s + [0]) == Arc.CString(s)
  {
    if s == [] {
      assert [] + [0 as byte] == [0];
    } else if s[0] != 0 {
      assert (s + [0])[1..] == s[1..] + [0];
      Terminated(s[1..]);
    }
  }
}
