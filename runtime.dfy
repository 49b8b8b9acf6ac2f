/**
 * The .NET services the application calls but whose workings are outside the model: the AES
 * password cipher, HTML entity encoding, date parsing and the culture's string order. Each is an
 * uninterpreted function supplied as part of a `Platform` value.
 */
module Runtime {
  import opened Base

  /** Ticks of a `DateTime`; 0 is `DateTime.MinValue`, what `Convert.ToDateTime(null)` gives. */
  type Ticks = int

  datatype Platform = Platform(
    /** `EncryptionHelper.EncryptData` */
    encrypt: string -> string,
    /** `EncryptionHelper.DecryptData` */
    decrypt: string -> string,
    /** `WebUtility.HtmlEncode` (`DataHelper.EncodeData`) */
    htmlEncode: string -> string,
    /** `WebUtility.HtmlDecode` / `HttpUtility.HtmlDecode` */
    htmlDecode: string -> string,
    /** `Convert.ToDateTime` of a stored, non-null date */
    parseDate: string -> Ticks,
    /** The current culture's sort key of a string, compared lexicographically */
    collate: string -> seq<int>
  )

  /** `Convert.ToDateTime(value)` of an optional child; a missing value is `DateTime.MinValue`. */
  function ParseDate(p: Platform, text: Option<string>): Ticks {
    if text == None then 0 else p.parseDate(text.value)
  }

  /** What the symmetric cipher is assumed to guarantee: decryption undoes encryption. */
  ghost predicate CipherRoundTrips(p: Platform) {
    forall x :: p.decrypt(p.encrypt(x)) == x
  }

  /** `EncryptionHelper.MatchData`: decrypts the stored value and compares it with the input. */
  predicate MatchData(p: Platform, input: string, encrypted: string) {
    input == p.decrypt(encrypted)
  }

  /** Under a round-tripping cipher, a stored password matches exactly the text it was made from. */
  lemma MatchEncrypted(p: Platform, input: string, stored: string)
    requires CipherRoundTrips(p)
    ensures MatchData(p, input, p.encrypt(stored)) <==> input == stored
  {
  }
}
