/**
 * The secrets the API handles itself: the temporary password handed out at
 * checkout (`generate_secure_password`, api/app.py:142-145) and the private
 * key file that every remote command uses (`retrieve_pem_key_from_key_vault`,
 * api/app.py:74-99).
 */
module Credentials {
  import opened Wrappers
  import Text

  // ---------------------------------------------------------------------------
  // Temporary passwords

  /** The characters from `lo` to `hi` in code-point order. */
  function CharRange(lo: char, hi: char): (r: string)
    requires lo <= hi < '\U{80}'
    ensures |r| == hi as int - lo as int + 1
    ensures forall i :: 0 <= i < |r| ==> lo <= r[i] <= hi && r[i] as int == lo as int + i
  {
    seq(hi as int - lo as int + 1, i requires 0 <= i < hi as int - lo as int + 1 => (lo as int + i) as char)
  }

  /** `string.ascii_letters`: `a`-`z` then `A`-`Z`. */
  const AsciiLetters: string := CharRange('a', 'z') + CharRange('A', 'Z')
  /** `string.digits`. */
  const Digits: string := CharRange('0', '9')
  /** `string.punctuation`: the 32 ASCII characters ``!"#$%&'()*+,-./:;<=>?@[\]^_`{|}~``. */
  const Punctuation: string := CharRange('!', '/') + CharRange(':', '@') + CharRange('[', '`') + CharRange('{', '~')

  /** `string.ascii_letters + string.digits + string.punctuation`. */
  const PasswordAlphabet: string := AsciiLetters + Digits + Punctuation

  /** The default of `generate_secure_password(length=25)`. */
  const DefaultPasswordLength: nat := 25

  /** One `secrets.choice(alphabet)` per draw: the character at the drawn number modulo the
      alphabet's size. */
  function Choose(alphabet: string, draws: seq<nat>): (p: string)
    requires |alphabet| > 0
    ensures |p| == |draws|
    ensures forall i :: 0 <= i < |p| ==> p[i] in alphabet
  {
    seq(|draws|, i requires 0 <= i < |draws| => alphabet[draws[i] % |alphabet|])
  }

  /** `''.join(secrets.choice(characters) for _ in range(length))`. The secure random source is
      the sequence `draws`, one number per character. */
  function GenerateSecurePassword(length: nat, draws: seq<nat>): (p: string)
    requires |draws| == length
    ensures |p| == length
    ensures forall i :: 0 <= i < |p| ==> p[i] in PasswordAlphabet
  {
    Choose(PasswordAlphabet, draws)
  }

  /** One draw per character of `s`: the position of its first occurrence in the alphabet. */
  function DrawsFor(alphabet: string, s: string): (d: seq<nat>)
    requires forall i :: 0 <= i < |s| ==> s[i] in alphabet
    ensures |d| == |s|
    ensures forall i :: 0 <= i < |d| ==> d[i] < |alphabet| && alphabet[d[i]] == s[i]
  {
    seq(|s|, i requires 0 <= i < |s| => Text.FirstIndex(alphabet, s[i]))
  }

  /** A draw below the alphabet's size picks the character at that position. */
  lemma SmallRemainder(k: nat, n: nat)
    requires k < n
    ensures k % n == k
  {
  }

  /** Every string over an alphabet is the choice of some draws. */
  lemma ChooseCoversAll(alphabet: string, s: string)
    requires |alphabet| > 0
    requires forall i :: 0 <= i < |s| ==> s[i] in alphabet
    ensures exists draws: seq<nat> :: |draws| == |s| && Choose(alphabet, draws) == s
  {
    var draws := DrawsFor(alphabet, s);
    var p := Choose(alphabet, draws);
    forall i | 0 <= i < |s|
      ensures p[i] == s[i]
    {
      SmallRemainder(draws[i], |alphabet|);
    }
    assert p == s;
  }

  /** The alphabet has 94 characters, all printable and none a blank; the single quote is one of them. */
  lemma AlphabetFacts()
    ensures |PasswordAlphabet| == 94
    ensures PasswordAlphabet[68] == '\''
    ensures forall c :: c in PasswordAlphabet ==> '!' <= c <= '~'
  {
    assert PasswordAlphabet[68] == Punctuation[6] == CharRange('!', '/')[6];
  }

  /** A generated password never holds a line break, so it fits on one chpasswd line. */
  lemma PasswordHasNoLineBreak(length: nat, draws: seq<nat>)
    requires |draws| == length
    ensures '\n' !in GenerateSecurePassword(length, draws)
  {
    AlphabetFacts();
  }

  /** No string over the alphabet is ruled out: every one of them is the result of some draws.
      (Together with the ensures of `GenerateSecurePassword`, the outputs are exactly the
      strings of that length over the alphabet.) */
  lemma EveryAlphabetStringIsGenerated(s: string)
    requires forall i :: 0 <= i < |s| ==> s[i] in PasswordAlphabet
    ensures exists draws: seq<nat> :: |draws| == |s| && GenerateSecurePassword(|s|, draws) == s
  {
    ChooseCoversAll(PasswordAlphabet, s);
  }

  // ---------------------------------------------------------------------------
  // The private key file `/tmp/private_key.pem`

  /** `st_mode`, a 32-bit `mode_t`. */
  type Mode = bv32

  /** The state of the key file on the API host: absent, or present with its text and `st_mode`. */
  datatype KeyFile = Absent | Present(content: string, mode: Mode)

  /** `0o600`. */
  const RequiredPermissions: Mode := 0x180

  /** `S_IFREG`, the file-type bits of a regular file. */
  const RegularFile: Mode := 0x8000

  /** `st_mode & 0o777`. */
  function PermissionBits(mode: Mode): Mode {
    mode & 0x1FF
  }

  /** `os.chmod(path, 0o600)`: the low twelve mode bits (permissions, set-id and sticky bits)
      become `0o600`; the file type stays. */
  function Chmod600(mode: Mode): (m: Mode)
    ensures PermissionBits(m) == RequiredPermissions
    ensures m >> 12 == mode >> 12
  {
    (mode & !0xFFF) | RequiredPermissions
  }

  datatype KeyOutcome = KeyRaised | KeyReady(file: KeyFile)

  /** `retrieve_pem_key_from_key_vault`. `secret` is what the vault returned (`None`: the fetch
      raised); `fsWorks` says whether writing the file and `chmod` succeed. The secret is fetched
      on every call; it is written only when the file is absent, otherwise only the permissions
      are checked and repaired. */
  function RetrievePemKey(secret: Option<string>, f: KeyFile, fsWorks: bool): (r: KeyOutcome)
    ensures r.KeyReady? ==> r.file.Present? && PermissionBits(r.file.mode) == RequiredPermissions
    ensures r.KeyReady? && f.Present? ==> r.file.content == f.content
    ensures r.KeyReady? && f.Absent? ==> secret.Some? && r.file.content == Text.NormalisePem(secret.value)
    ensures r.KeyRaised? <==>
      secret.None? || (!fsWorks && (f.Absent? || PermissionBits(f.mode) != RequiredPermissions))
  {
    if secret.None? then KeyRaised
    else
      match f
      case Absent =>
        if fsWorks then KeyReady(Present(Text.NormalisePem(secret.value), Chmod600(RegularFile)))
        else KeyRaised
      case Present(content, mode) =>
        if PermissionBits(mode) == RequiredPermissions then KeyReady(f)
        else if fsWorks then KeyReady(Present(content, Chmod600(mode)))
        else KeyRaised
  }

  /** Once the key is in place it is reused as it is: a second retrieval with the secret still
      available changes nothing and cannot fail on the file system. */
  lemma RetrievePemKeyReuses(secret: Option<string>, f: KeyFile, fsWorks: bool, fsWorks': bool)
    requires RetrievePemKey(secret, f, fsWorks).KeyReady?
    ensures var f' := RetrievePemKey(secret, f, fsWorks).file;
            RetrievePemKey(secret, f', fsWorks') == KeyReady(f')
  {
  }
}
