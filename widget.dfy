/** The page script of the widget (script.js:8-9, 50-58, 71-128): the key loaded or generated
    when the page loads, the values of the two form fields (the `.text-area` input and the
    `.message` output), and the three button handlers that overwrite or clear them.
    The AES library (`CryptoJS.AES.encrypt`, `CryptoJS.AES.decrypt` followed by the UTF-8
    decoding) and `toUpperCase` are code outside this model; each handler receives them as
    functions, so nothing here depends on what they compute. */
module Widget {
  import opened Wrappers
  import opened HexKey
  import opened JsStrings
  import opened KeyStore

  /** A text transform that changes nothing when applied a second time. */
  ghost predicate Idempotent(f: string -> string) {
    forall s :: f(f(s)) == f(s)
  }

  /** `encryptText` (script.js:71-73): the plaintext and key handed to the library unchanged.
      The library answers None where it throws instead of returning a ciphertext. */
  function EncryptText(aesEncrypt: (string, string) -> Option<string>, plainText: string, key: string): Option<string> {
    aesEncrypt(plainText, key)
  }

  /** `decryptText` (script.js:96-99): the library's decryption, decoded as UTF-8, then
      upper-cased. The library answers None where it throws, as the UTF-8 decoding does on a
      ciphertext that does not decrypt to valid UTF-8 (one made under another browser's key,
      for instance); the exception then passes through `decryptText` unchanged. When the
      library answers, the result is already in the transform's image, so upper-casing it
      again (for any idempotent transform) leaves it as it is. */
  function DecryptText(aesDecryptUtf8: (string, string) -> Option<string>, toUpperCase: string -> string,
                       encryptedText: string, key: string): (r: Option<string>)
    ensures r.Some? <==> aesDecryptUtf8(encryptedText, key).Some?
    ensures r.Some? && Idempotent(toUpperCase) ==> toUpperCase(r.value) == r.value
  {
    match aesDecryptUtf8(encryptedText, key)
    case None => None
    case Some(plainText) => Some(toUpperCase(plainText))
  }

  class Page {
    /** The store this page reads its key from; shared by every load of the page. */
    const localStorage: LocalStorage
    /** The module-level `let secretKey`. */
    var secretKey: string
    /** `textArea.value`. */
    var textArea: string
    /** `message.value`. */
    var message: string

    /** The page's key is non-empty and is what the store holds under `'secretKey'`. */
    ghost predicate KeyProvisioned()
      reads this, localStorage
    {
      SecretKeyName in localStorage.items && localStorage.items[SecretKeyName] == secretKey
      && secretKey != ""
    }

    /** Loading the page (script.js:50-58): read the stored key; if it is falsy, generate one
        from the random bytes and save it. The fields start with the values the page's markup
        gives them. */
    constructor Load(localStorage: LocalStorage, randomBytes: seq<byte>, textArea: string, message: string)
      requires |randomBytes| == KeyBytes
      modifies localStorage
      ensures this.localStorage == localStorage
      ensures Provisioned(localStorage.items, secretKey) == LoadKey(old(localStorage.items), randomBytes)
      ensures KeyProvisioned()
      ensures this.textArea == textArea && this.message == message
    {
      this.localStorage := localStorage;
      var key := GetKeyFromLocalStorage(localStorage);
      if Falsy(key) {
        key := Some(GenerateSecretKey(randomBytes));
        SaveKeyToLocalStorage(localStorage, key.value);
      }
      secretKey := key.value;
      this.textArea := textArea;
      this.message := message;
    }

    /** `encryptButton` (script.js:79-84): the encryption of the input goes to the message
        field and the input is cleared; nothing else changes. When the library throws
        (`thrown`), the handler stops before its assignments and both fields keep their values. */
    method EncryptButton(aesEncrypt: (string, string) -> Option<string>) returns (thrown: bool)
      modifies this`textArea, this`message
      ensures thrown <==> aesEncrypt(old(textArea), secretKey).None?
      ensures thrown ==> message == old(message) && textArea == old(textArea)
      ensures !thrown ==> Some(message) == aesEncrypt(old(textArea), secretKey) && textArea == ""
      ensures old(KeyProvisioned()) ==> KeyProvisioned()
    {
      var encryptedText := EncryptText(aesEncrypt, textArea, secretKey);
      if encryptedText.None? {
        return true;
      }
      thrown := false;
      message := encryptedText.value;
      textArea := "";
    }

    /** `decryptButton` (script.js:105-109): the upper-cased decryption of the input goes to
        the message field and the input is cleared; nothing else changes. When the decryption
        throws (`thrown`), the handler stops before script.js:107-108 and both fields keep their
        values: the message stays as it was and the ciphertext stays in the input. */
    method DecryptButton(aesDecryptUtf8: (string, string) -> Option<string>, toUpperCase: string -> string)
      returns (thrown: bool)
      modifies this`textArea, this`message
      ensures thrown <==> aesDecryptUtf8(old(textArea), secretKey).None?
      ensures thrown ==> message == old(message) && textArea == old(textArea)
      ensures !thrown ==> Some(message) == DecryptText(aesDecryptUtf8, toUpperCase, old(textArea), secretKey)
      ensures !thrown ==> textArea == ""
      ensures !thrown && Idempotent(toUpperCase) ==> toUpperCase(message) == message
      ensures old(KeyProvisioned()) ==> KeyProvisioned()
    {
      var decryptedText := DecryptText(aesDecryptUtf8, toUpperCase, textArea, secretKey);
      if decryptedText.None? {
        return true;
      }
      thrown := false;
      message := decryptedText.value;
      textArea := "";
    }

    /** `copyText` (script.js:114-128): a blank message (empty or only white space) is left as
        it is and no temporary element is made; otherwise the message is put into the temporary
        element the copy command selects (`staged`, script.js:118) and the field is cleared.
        The input field is never touched. */
    method CopyText() returns (staged: Option<string>)
      modifies this`message
      ensures IsBlank(old(message)) ==> staged == None && message == old(message)
      ensures !IsBlank(old(message)) ==> staged == Some(old(message)) && message == ""
      ensures old(KeyProvisioned()) ==> KeyProvisioned()
    {
      var textToCopy := message;
      if Trim(textToCopy) == "" {
        return None;
      }
      staged := Some(textToCopy);
      message := "";
    }
  }

  /** Two loads of the page on one store: the second load finds the first one's key, keeps it,
      and leaves the store as the first load left it. */
  method LoadTwice(localStorage: LocalStorage, firstBytes: seq<byte>, laterBytes: seq<byte>)
    returns (first: Page, later: Page)
    requires |firstBytes| == KeyBytes && |laterBytes| == KeyBytes
    modifies localStorage
    ensures later.secretKey == first.secretKey && later.KeyProvisioned()
    ensures localStorage.items == LoadKey(old(localStorage.items), firstBytes).items
  {
    first := new Page.Load(localStorage, firstBytes, "", "");
    later := new Page.Load(localStorage, laterBytes, "", "");
    LoadKeyIdempotent(old(localStorage.items), firstBytes, laterBytes);
  }
}
