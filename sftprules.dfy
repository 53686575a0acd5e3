/**
 * The SFTP controller's rules that only compute: how a remote error becomes a
 * response, which connection settings are reported missing, how authentication
 * details are checked, which cipher list a session is opened with, and how the
 * application settings are read.
 */
module SftpRules {
  import opened Wrappers
  import opened Basics
  import opened Remote
  import opened Outcomes

  // ----- GetErrorResponseMessage -----

  /**
   * GetErrorResponseMessage: Forbidden when the inner exception's message mentions
   * "denied" in any letter case, NotFound for every other remote error.
   */
  function ErrorResponse(e: RemoteError): (r: Response)
  {
    if e.inner.Some? && Contains(ToLower(e.inner.value), "denied") then Forbidden else NotFound
  }

  /** A word occurs in any text built around it. */
  lemma {:induction false} ContainsMiddle(a: string, b: string, c: string)
    ensures Contains(a + b + c, b)
    decreases |a|
  {
    if a == [] {
      assert (a + b + c)[..|b|] == b;
    } else {
      assert (a + b + c)[1..] == a[1..] + b + c;
      ContainsMiddle(a[1..], b, c);
    }
  }

  /** A text lacking one of a word's characters does not contain the word. */
  lemma {:induction false} ContainsNeedsChar(s: string, sub: string, k: nat)
    requires k < |sub| && sub[k] !in s
    ensures !Contains(s, sub)
    decreases |s|
  {
    if s != [] {
      ContainsNeedsChar(s[1..], sub, k);
    }
  }

  lemma ToLowerConcat(a: string, b: string, c: string)
    ensures ToLower(a + b + c) == ToLower(a) + ToLower(b) + ToLower(c)
  {
    assert forall i :: 0 <= i < |a + b + c| ==> ToLower(a + b + c)[i] == (ToLower(a) + ToLower(b) + ToLower(c))[i];
  }

  /** Any message holding "denied", in whatever letter case, makes the error Forbidden. */
  lemma DeniedInAnyCaseIsForbidden(prefix: string, word: string, suffix: string)
    requires ToLower(word) == "denied"
    ensures ErrorResponse(RemoteError(Some(prefix + word + suffix))) == Forbidden
  {
    ToLowerConcat(prefix, word, suffix);
    ContainsMiddle(ToLower(prefix), "denied", ToLower(suffix));
  }

  /** A remote error without an inner exception, or whose message has no letter d in either case, is NotFound. */
  lemma OtherErrorsAreNotFound(e: RemoteError)
    requires e.inner.None? || ('d' !in e.inner.value && 'D' !in e.inner.value)
    ensures ErrorResponse(e) == NotFound
  {
    if e.inner.Some? {
      var lowered := ToLower(e.inner.value);
      assert 'd' !in lowered;
      ContainsNeedsChar(lowered, "denied", 0);
    }
  }

  /** The errors the store raises: a refused folder is Forbidden, a missing entry and a refused request NotFound. */
  lemma StoreErrorResponses()
    ensures ErrorResponse(PermissionDenied) == Forbidden
    ensures ErrorResponse(NoSuchFile) == NotFound
    ensures ErrorResponse(GeneralFailure) == NotFound
  {
    PermissionDeniedIsForbidden();
    NoSuchFileIsNotFound();
    GeneralFailureIsNotFound();
  }

  lemma LowerDenied()
    ensures ToLower("denied") == "denied"
  {
  }

  lemma PermissionDeniedIsForbidden()
    ensures ErrorResponse(PermissionDenied) == Forbidden
  {
    assert "Permission denied" == "Permission " + "denied" + "";
    LowerDenied();
    DeniedInAnyCaseIsForbidden("Permission ", "denied", "");
  }

  lemma NoSuchFileIsNotFound()
    ensures ErrorResponse(NoSuchFile) == NotFound
  {
    assert 'd' !in "No such file" && 'D' !in "No such file";
    OtherErrorsAreNotFound(NoSuchFile);
  }

  lemma GeneralFailureIsNotFound()
    ensures ErrorResponse(GeneralFailure) == NotFound
  {
    assert 'd' !in "Failure" && 'D' !in "Failure";
    OtherErrorsAreNotFound(GeneralFailure);
  }

  // ----- GetSessionOptions: the cipher list -----

  datatype EncryptionCipher = Auto | Aes | TripleDes | Blowfish | Arcfour | Des

  /** Enum.ToString of a cipher. */
  function CipherName(c: EncryptionCipher): string
  {
    match c
    case Auto => "Auto"
    case Aes => "Aes"
    case TripleDes => "TripleDes"
    case Blowfish => "Blowfish"
    case Arcfour => "Arcfour"
    case Des => "Des"
  }

  const DefaultEncryptionCipher: string := "aes,3des,blowfish,WARN,arcfour,des"

  /**
   * The "Cipher" raw setting of the session: the default preference list for Auto,
   * "3des,WARN" for TripleDes, and otherwise the lower-cased name followed by ",WARN".
   */
  function CipherSetting(c: EncryptionCipher): (r: string)
    ensures c == Auto <==> r == DefaultEncryptionCipher
    ensures c != Auto ==> |r| > 5 && r[|r| - 5..] == ",WARN"
    ensures c == TripleDes <==> r == "3des,WARN"
  {
    if c == Auto then DefaultEncryptionCipher
    else if c == TripleDes then "3des,WARN"
    else ToLower(CipherName(c)) + ",WARN"
  }

  /** Different ciphers give different settings, so the chosen cipher is always the one asked for. */
  lemma CipherSettingInjective(a: EncryptionCipher, b: EncryptionCipher)
    ensures CipherSetting(a) == CipherSetting(b) ==> a == b
  {
    SingleCipherSettings();
  }

  /** The lower-cased cipher names, one small proof each. */
  lemma LowerCipherNames()
    ensures ToLower("Auto") == "auto" && ToLower("Aes") == "aes" && ToLower("TripleDes") == "tripledes"
    ensures ToLower("Blowfish") == "blowfish" && ToLower("Arcfour") == "arcfour" && ToLower("Des") == "des"
  {
    LowerAuto(); LowerAes(); LowerTripleDes(); LowerBlowfish(); LowerArcfour(); LowerDes();
  }

  lemma LowerAuto() ensures ToLower("Auto") == "auto" { }
  lemma LowerAes() ensures ToLower("Aes") == "aes" { }
  lemma LowerTripleDes() ensures ToLower("TripleDes") == "tripledes" { }
  lemma LowerBlowfish() ensures ToLower("Blowfish") == "blowfish" { }
  lemma LowerArcfour() ensures ToLower("Arcfour") == "arcfour" { }
  lemma LowerDes() ensures ToLower("Des") == "des" { }

  /** A single cipher is the only one asked for, with the WARN marker after it. */
  lemma SingleCipherSettings()
    ensures CipherSetting(Aes) == "aes,WARN"
    ensures CipherSetting(Blowfish) == "blowfish,WARN"
    ensures CipherSetting(Arcfour) == "arcfour,WARN"
    ensures CipherSetting(Des) == "des,WARN"
  {
    AesSetting(); BlowfishSetting(); ArcfourSetting(); DesSetting();
  }

  lemma AesSetting() ensures CipherSetting(Aes) == "aes,WARN"
  {
    LowerAes();
    assert "aes" + ",WARN" == "aes,WARN";
  }

  lemma BlowfishSetting() ensures CipherSetting(Blowfish) == "blowfish,WARN"
  {
    LowerBlowfish();
    assert "blowfish" + ",WARN" == "blowfish,WARN";
  }

  lemma ArcfourSetting() ensures CipherSetting(Arcfour) == "arcfour,WARN"
  {
    LowerArcfour();
    assert "arcfour" + ",WARN" == "arcfour,WARN";
  }

  lemma DesSetting() ensures CipherSetting(Des) == "des,WARN"
  {
    LowerDes();
    assert "des" + ",WARN" == "des,WARN";
  }

  /** The SessionOptions a session is opened with. */
  datatype SessionOptions = SessionOptions(
    hostName: Option<string>,
    userName: Option<string>,
    password: Option<string>,
    sshPrivateKeyPath: Option<string>,
    sshPrivateKeyPassphrase: Option<string>,
    giveUpSecurityAndAcceptAnySshHostKey: bool,
    sshHostKeyFingerprint: Option<string>,
    cipher: string)

  /** GetSessionOptions: the connection properties, and the cipher list chosen for the configured cipher. */
  function GetSessionOptions(c: ConnectionSettings): (o: SessionOptions)
    ensures o.cipher == CipherSetting(c.encryptCipher)
    ensures o.hostName == c.serverAddress && o.userName == c.userName && o.password == c.password
    ensures o.sshPrivateKeyPath == c.privateKeyFilePath && o.sshPrivateKeyPassphrase == c.privateKeyPassword
    ensures o.giveUpSecurityAndAcceptAnySshHostKey == c.acceptAnySshServerHostKey
    ensures o.sshHostKeyFingerprint == c.sshServerHostKey
  {
    SessionOptions(c.serverAddress, c.userName, c.password, c.privateKeyFilePath, c.privateKeyPassword,
      c.acceptAnySshServerHostKey, c.sshServerHostKey, CipherSetting(c.encryptCipher))
  }

  // ----- ValidateController -----

  /** The messages ValidateController adds, one constructor per check. */
  datatype ValidationError =
    | ServerAddressMissing
    | PortOutOfRange
    | UserNameMissing
    | PrivateKeyPasswordWithoutKey
    | HostKeyMissing

  const MaxPortRange: int := 65535

  /** The controller properties a session is opened with. */
  datatype ConnectionSettings = ConnectionSettings(
    serverAddress: Option<string>,
    serverPort: ushort,
    userName: Option<string>,
    password: Option<string>,
    privateKeyFilePath: Option<string>,
    privateKeyPassword: Option<string>,
    acceptAnySshServerHostKey: bool,
    sshServerHostKey: Option<string>,
    encryptCipher: EncryptionCipher)

  /**
   * The errors one ValidateController call adds, in the order of its checks. The
   * port check compares a ushort with 0 and 65535, so it never fires.
   */
  function ValidationErrors(c: ConnectionSettings): (r: seq<ValidationError>)
    ensures ServerAddressMissing in r <==> IsNullOrWhiteSpace(c.serverAddress)
    ensures UserNameMissing in r <==> IsNullOrWhiteSpace(c.userName)
    ensures PrivateKeyPasswordWithoutKey in r <==> IsNullOrWhiteSpace(c.privateKeyFilePath) && !IsNullOrWhiteSpace(c.privateKeyPassword)
    ensures HostKeyMissing in r <==> !c.acceptAnySshServerHostKey && IsNullOrWhiteSpace(c.sshServerHostKey)
    ensures PortOutOfRange !in r
    ensures forall i, j :: 0 <= i < j < |r| ==> r[i] != r[j]
  {
    var address := if IsNullOrWhiteSpace(c.serverAddress) then [ServerAddressMissing] else [];
    var port := if c.serverPort < 0 || c.serverPort > MaxPortRange then [PortOutOfRange] else [];
    var user := if IsNullOrWhiteSpace(c.userName) then [UserNameMissing] else [];
    var key := if IsNullOrWhiteSpace(c.privateKeyFilePath) && !IsNullOrWhiteSpace(c.privateKeyPassword)
      then [PrivateKeyPasswordWithoutKey] else [];
    var hostKey := if !c.acceptAnySshServerHostKey && IsNullOrWhiteSpace(c.sshServerHostKey) then [HostKeyMissing] else [];
    address + port + user + key + hostKey
  }

  // ----- ValidateAuthenticationDetails -----

  datatype AuthenticationType = Password | PrivateKey | MultiFactor

  /** An AuthenticationDetails record; None is a property left null. */
  datatype AuthenticationDetails = AuthenticationDetails(
    authenticationType: Option<string>,
    userName: Option<string>,
    password: Option<string>,
    content: Option<string>,
    ppkFilePassword: Option<string>,
    ppkFileName: Option<string>)

  /** The exceptions of Enum.Parse: ArgumentNullException and ArgumentException. */
  datatype ParseError = ParseArgumentNull | ParseArgument

  /** Enum.Parse(typeof(AuthenticationType), s): a member name, exactly, once white space is trimmed. */
  function ParseAuthenticationType(s: Option<string>): (r: Result<AuthenticationType, ParseError>)
    ensures r == Failure(ParseArgumentNull) <==> s.None?
    ensures r == Success(Password) <==> s.Some? && Trim(s.value) == "Password"
    ensures r == Success(PrivateKey) <==> s.Some? && Trim(s.value) == "PrivateKey"
    ensures r == Success(MultiFactor) <==> s.Some? && Trim(s.value) == "MultiFactor"
  {
    if s.None? then Failure(ParseArgumentNull)
    else
      var t := Trim(s.value);
      if t == "Password" then Success(Password)
      else if t == "PrivateKey" then Success(PrivateKey)
      else if t == "MultiFactor" then Success(MultiFactor)
      else Failure(ParseArgument)
  }

  /** String.Format's rendering of a string argument: a null argument renders as "". */
  function FormatArgument(s: Option<string>): string
  {
    if s.None? then "" else s.value
  }

  /**
   * ValidateAuthenticationDetails: whether the details are complete and the error text;
   * a Failure is the exception Enum.Parse throws, which escapes the method.
   */
  function ValidateAuthenticationDetails(d: AuthenticationDetails): (r: Result<(bool, string), ParseError>)
    ensures IsNullOrWhiteSpace(d.userName) ==>
      r == Success((false, "AuthenticationType is " + FormatArgument(d.authenticationType) + ",UserName is Null!"))
    ensures !IsNullOrWhiteSpace(d.userName) ==> (r.Failure? <==> ParseAuthenticationType(d.authenticationType).Failure?)
    ensures r.Success? && r.value.0 ==> r.value.1 == ""
    ensures r.Success? && r.value.0 <==>
      && !IsNullOrWhiteSpace(d.userName)
      && ParseAuthenticationType(d.authenticationType).Success?
      && match ParseAuthenticationType(d.authenticationType).value
         case Password => !IsNullOrWhiteSpace(d.password)
         case PrivateKey => !IsNullOrWhiteSpace(d.content) && !IsNullOrWhiteSpace(d.ppkFileName)
         case MultiFactor =>
           !IsNullOrWhiteSpace(d.password) && !IsNullOrWhiteSpace(d.content) && !IsNullOrWhiteSpace(d.ppkFileName)
  {
    var name := FormatArgument(d.authenticationType);
    if IsNullOrWhiteSpace(d.userName) then Success((false, "AuthenticationType is " + name + ",UserName is Null!"))
    else
      match ParseAuthenticationType(d.authenticationType)
      case Failure(e) => Failure(e)
      case Success(authType) =>
        if authType == Password && IsNullOrWhiteSpace(d.password) then
          Success((false, "AuthenticationType is " + name + ", Password is Null!"))
        else if authType == PrivateKey && (IsNullOrWhiteSpace(d.content) || IsNullOrWhiteSpace(d.ppkFileName)) then
          Success((false, "AuthenticationType is " + name + ",PPK file content or PPK file name is Null!"))
        else if authType == MultiFactor
          && (IsNullOrWhiteSpace(d.password) || IsNullOrWhiteSpace(d.content) || IsNullOrWhiteSpace(d.ppkFileName)) then
          Success((false, "AuthenticationType is " + name + ",Password/PPKFileContent/PPK file name is Null!"))
        else Success((true, ""))
  }

  /** A refusal always names the authentication type it was given. */
  lemma RefusalNamesType(d: AuthenticationDetails)
    requires ValidateAuthenticationDetails(d).Success? && !ValidateAuthenticationDetails(d).value.0
    ensures StartsWith(ValidateAuthenticationDetails(d).value.1, "AuthenticationType is " + FormatArgument(d.authenticationType))
  {
    var prefix := "AuthenticationType is " + FormatArgument(d.authenticationType);
    PrefixStarts(prefix, ",UserName is Null!");
    PrefixStarts(prefix, ", Password is Null!");
    PrefixStarts(prefix, ",PPK file content or PPK file name is Null!");
    PrefixStarts(prefix, ",Password/PPKFileContent/PPK file name is Null!");
  }

  lemma PrefixStarts(a: string, b: string)
    ensures StartsWith(a + b, a)
  {
    assert (a + b)[..|a|] == a;
  }

  // ----- The constructor: reading the application settings -----

  /** The two exceptions Convert.ToUInt16 throws. */
  datatype NumberError = NumberFormat | NumberOverflow

  /** The white space NumberStyles.Integer allows around a number. */
  predicate IsNumberWhite(c: char)
  {
    '\t' <= c <= '\r' || c == ' '
  }

  /**
   * Convert.ToUInt16(s, CultureInfo.InvariantCulture): optional white space, an optional
   * sign, at least one decimal digit, optional white space. A value above 65535, or a
   * negative one other than zero, overflows.
   */
  function ParseUInt16(s: string): (r: Result<ushort, NumberError>)
  {
    var t := TrimWhere(s, IsNumberWhite);
    var signed := t != [] && (t[0] == '-' || t[0] == '+');
    var digits := if signed then t[1..] else t;
    if digits == [] || !AllDigits(digits) then Failure(NumberFormat)
    else
      var v := DigitsValue(digits);
      if (t[0] == '-' && v != 0) || v > 0xFFFF then Failure(NumberOverflow)
      else Success(v)
  }

  /** The decimal digits of n, as a configuration file holds them. */
  function DecimalString(n: nat): (s: string)
    ensures s != [] && AllDigits(s)
  {
    if n < 10 then [('0' as int + n) as char] else DecimalString(n / 10) + [('0' as int + n % 10) as char]
  }

  lemma {:induction false} DecimalStringValue(n: nat)
    ensures DigitsValue(DecimalString(n)) == n
  {
    if n >= 10 {
      var s := DecimalString(n);
      assert s[..|s| - 1] == DecimalString(n / 10);
      DecimalStringValue(n / 10);
    }
  }

  lemma NoNumberWhiteInDigits(s: string)
    requires s != [] && AllDigits(s)
    ensures TrimWhere(s, IsNumberWhite) == s
  {
  }

  /** A port written in decimal reads back as that port, and one above 65535 overflows. */
  lemma ParseDecimal(n: nat)
    ensures n <= 0xFFFF ==> ParseUInt16(DecimalString(n)) == Success(n)
    ensures n > 0xFFFF ==> ParseUInt16(DecimalString(n)) == Failure(NumberOverflow)
  {
    NoNumberWhiteInDigits(DecimalString(n));
    DecimalStringValue(n);
  }

  /** bool.Parse: "true" or "false" in any letter case, once white space and NUL characters are trimmed. */
  function ParseBoolean(s: string): (r: Option<bool>)
    ensures r == Some(true) <==> EqualsIgnoreCase(TrimWhere(s, c => IsWhiteSpace(c) || c == '\0'), "true")
    ensures r == Some(false) <==> EqualsIgnoreCase(TrimWhere(s, c => IsWhiteSpace(c) || c == '\0'), "false")
  {
    var t := TrimWhere(s, c => IsWhiteSpace(c) || c == '\0');
    if EqualsIgnoreCase(t, "true") then Some(true)
    else if EqualsIgnoreCase(t, "false") then Some(false)
    else None
  }

  /** Enum.Parse(typeof(EncryptionCipher), s, true): a member name in any letter case, once trimmed. */
  function ParseCipher(s: string): (r: Option<EncryptionCipher>)
    ensures r.Some? ==> EqualsIgnoreCase(Trim(s), CipherName(r.value))
  {
    var t := Trim(s);
    if EqualsIgnoreCase(t, "Auto") then Some(Auto)
    else if EqualsIgnoreCase(t, "Aes") then Some(Aes)
    else if EqualsIgnoreCase(t, "TripleDes") then Some(TripleDes)
    else if EqualsIgnoreCase(t, "Blowfish") then Some(Blowfish)
    else if EqualsIgnoreCase(t, "Arcfour") then Some(Arcfour)
    else if EqualsIgnoreCase(t, "Des") then Some(Des)
    else None
  }

  /** Every cipher's own name, in any letter case the settings use, reads back as that cipher. */
  lemma ParseCipherName(c: EncryptionCipher, s: string)
    requires EqualsIgnoreCase(Trim(s), CipherName(c))
    ensures ParseCipher(s) == Some(c)
  {
    LowerCipherNames();
  }

  /** The host key fingerprint put in place of a configured one when any host key is accepted. */
  const SshServerHostKey: string := "ssh-rsa 2048 40:c5:8a:f7:9e:53:44:fc:f4:ae:3e:a3:48:bb:ec:d2"

  /** The ErrorException the constructor records: the out-of-range port, or the exception itself. */
  datatype ConfigurationError = OutOfRangePort | InvalidSetting

  /** What the constructors leave in the configuration properties. */
  datatype ParsedSettings = ParsedSettings(
    rootFolderPath: string,
    serverAddress: Option<string>,
    serverPort: ushort,
    acceptAnySshServerHostKey: bool,
    encryptCipher: EncryptionCipher,
    sshServerHostKey: Option<string>,
    configurationError: Option<ConfigurationError>)

  /** ConfigurationManager.AppSettings[key]: None for a missing key. */
  function Setting(settings: map<string, string>, key: string): Option<string>
  {
    if key in settings then Some(settings[key]) else None
  }

  /** The port setting: 22 when absent or empty. */
  function PortSetting(settings: map<string, string>): Result<ushort, NumberError>
  {
    var text := Setting(settings, "SftpServerPort");
    if IsNullOrEmpty(text) then Success(22) else ParseUInt16(text.value)
  }

  function AcceptAnySetting(settings: map<string, string>): Option<bool>
  {
    var text := Setting(settings, "AcceptAnySSHServerHostKey");
    if IsNullOrEmpty(text) then Some(false) else ParseBoolean(text.value)
  }

  function CipherSettingOf(settings: map<string, string>): Option<EncryptionCipher>
  {
    var text := Setting(settings, "EncryptCipher");
    if IsNullOrEmpty(text) then Some(Auto) else ParseCipher(text.value)
  }

  /** The properties after the base and the SFTP constructors, given the assignments the try block completed. */
  function Finish(settings: map<string, string>, port: ushort, acceptAny: bool, cipher: EncryptionCipher,
                  error: Option<ConfigurationError>): ParsedSettings
  {
    var root := Setting(settings, "RootFolderPath");
    ParsedSettings(
      if root.None? then "" else root.value,
      Setting(settings, "SftpServerAddress"),
      port, acceptAny, cipher,
      if acceptAny then Some(SshServerHostKey) else Setting(settings, "SSHServerHostKey"),
      error)
  }

  /**
   * The constructors: the assignments run in order, the first exception ends them
   * and leaves the remaining properties at their defaults, and the host key is chosen
   * after the try block either way.
   */
  function ParseSettings(settings: map<string, string>): (p: ParsedSettings)
    ensures p.configurationError.None? <==>
      PortSetting(settings).Success? && AcceptAnySetting(settings).Some? && CipherSettingOf(settings).Some?
    ensures p.configurationError == Some(OutOfRangePort) <==> PortSetting(settings) == Failure(NumberOverflow)
    ensures PortSetting(settings).Success? ==> p.serverPort == PortSetting(settings).value
    ensures p.configurationError.None? ==>
      p.acceptAnySshServerHostKey == AcceptAnySetting(settings).value && p.encryptCipher == CipherSettingOf(settings).value
    ensures p.acceptAnySshServerHostKey ==> p.sshServerHostKey == Some(SshServerHostKey)
    ensures !p.acceptAnySshServerHostKey ==> p.sshServerHostKey == Setting(settings, "SSHServerHostKey")
    ensures p.serverAddress == Setting(settings, "SftpServerAddress")
    ensures "RootFolderPath" !in settings ==> p.rootFolderPath == ""
    ensures "RootFolderPath" in settings ==> p.rootFolderPath == settings["RootFolderPath"]
  {
    match PortSetting(settings)
    case Failure(e) => Finish(settings, 0, false, Auto, Some(if e == NumberOverflow then OutOfRangePort else InvalidSetting))
    case Success(port) =>
      match AcceptAnySetting(settings)
      case None => Finish(settings, port, false, Auto, Some(InvalidSetting))
      case Some(acceptAny) =>
        match CipherSettingOf(settings)
        case None => Finish(settings, port, acceptAny, Auto, Some(InvalidSetting))
        case Some(cipher) => Finish(settings, port, acceptAny, cipher, None)
  }

  /** Without a port setting the port is 22. */
  lemma DefaultPort(settings: map<string, string>)
    requires "SftpServerPort" !in settings || settings["SftpServerPort"] == ""
    ensures ParseSettings(settings).serverPort == 22
  {
  }

  /** A port written in decimal is the port used, and one beyond 65535 makes the configuration invalid. */
  lemma ConfiguredPort(settings: map<string, string>, n: nat)
    requires "SftpServerPort" in settings && settings["SftpServerPort"] == DecimalString(n)
    ensures n <= 0xFFFF ==> ParseSettings(settings).serverPort == n
    ensures n > 0xFFFF ==> ParseSettings(settings).configurationError == Some(OutOfRangePort)
  {
    ParseDecimal(n);
  }
}
