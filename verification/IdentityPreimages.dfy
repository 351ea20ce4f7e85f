/** The byte streams behind the engine configuration hash and the bundle identifier. */
module IdentityPreimages {
  import opened Bytes
  import opened Framing
  import opened Streams
  import opened Wrappers

  // ---------------------------------------------------------------- the engine configuration

  datatype SandboxMode = Disabled | RequiredLinuxBubblewrap

  /** A `Duration`: whole seconds and the nanoseconds left over. */
  datatype Duration = Duration(seconds: u64, nanos: nat)

  datatype EngineConfig = EngineConfig(
    arguments: seq<Buffer>,
    timeout: Duration,
    maxOutputBytes: u64,
    requireFullGraph: bool,
    maxMemoryBytes: u64,
    maxCpuSeconds: u64,
    maxOpenFiles: u64,
    sandbox: SandboxMode)

  ghost predicate ValidConfig(c: EngineConfig) {
    c.timeout.nanos < 1_000_000_000
  }

  function Millis(d: Duration): nat {
    d.seconds * 1000 + d.nanos / 1_000_000
  }

  const CONFIG_TAG: Buffer := Ascii("secureflow-engine-config-v1")
  const FULL_GRAPH: Buffer := Ascii("full-engine-graph-required-v1")
  const DEFAULT_GRAPH: Buffer := Ascii("engine-default-graph-v1")
  const SANDBOX_DISABLED: Buffer := Ascii("sandbox-disabled")
  const SANDBOX_REQUIRED: Buffer := Ascii("sandbox-required-linux-bubblewrap-v1")

  function GraphField(full: bool): Buffer { if full then FULL_GRAPH else DEFAULT_GRAPH }

  function SandboxField(mode: SandboxMode): Buffer {
    match mode
    case Disabled => SANDBOX_DISABLED
    case RequiredLinuxBubblewrap => SANDBOX_REQUIRED
  }

  lemma DecimalIsBuffer(n: nat)
    requires n < 1_000_000_000_000_000_000_000_000
    ensures |Decimal(n)| <= U64_MAX
  {
    assert Pow10(24) == 1_000_000_000_000_000_000_000_000 by {
      assert Pow10(8) == 100_000_000;
      assert Pow10(16) == 100_000_000 * Pow10(8);
      assert Pow10(24) == 100_000_000 * Pow10(16);
    }
    DecimalLength(n, 24);
  }

  function DecimalField(n: nat): Buffer
    requires n < 1_000_000_000_000_000_000_000_000
  {
    DecimalIsBuffer(n);
    Decimal(n)
  }

  /** The seven fields after the arguments. */
  function Settings(c: EngineConfig): (r: seq<Buffer>)
    requires ValidConfig(c)
    ensures |r| == 7
  {
    [DecimalField(Millis(c.timeout)), DecimalField(c.maxOutputBytes), GraphField(c.requireFullGraph),
     DecimalField(c.maxMemoryBytes), DecimalField(c.maxCpuSeconds), DecimalField(c.maxOpenFiles),
     SandboxField(c.sandbox)]
  }

  function ConfigFields(c: EngineConfig): seq<Buffer>
    requires ValidConfig(c)
  {
    [CONFIG_TAG] + c.arguments + Settings(c)
  }

  predicate SameSettings(c: EngineConfig, d: EngineConfig) {
    && Millis(c.timeout) == Millis(d.timeout)
    && c.maxOutputBytes == d.maxOutputBytes
    && c.requireFullGraph == d.requireFullGraph
    && c.maxMemoryBytes == d.maxMemoryBytes
    && c.maxCpuSeconds == d.maxCpuSeconds
    && c.maxOpenFiles == d.maxOpenFiles
    && c.sandbox == d.sandbox
  }

  lemma DecimalFieldInjective(m: nat, n: nat)
    requires m < 1_000_000_000_000_000_000_000_000 && n < 1_000_000_000_000_000_000_000_000
    ensures DecimalField(m) == DecimalField(n) <==> m == n
  {
    DecimalRoundTrip(m);
    DecimalRoundTrip(n);
  }

  lemma LabelsDiffer()
    ensures FULL_GRAPH != DEFAULT_GRAPH && SANDBOX_DISABLED != SANDBOX_REQUIRED
  {
    assert |FULL_GRAPH| == 29 && |DEFAULT_GRAPH| == 23;
    assert |SANDBOX_DISABLED| == 16 && |SANDBOX_REQUIRED| == 36;
  }

  lemma SettingsInjective(c: EngineConfig, d: EngineConfig)
    requires ValidConfig(c) && ValidConfig(d)
    ensures Settings(c) == Settings(d) <==> SameSettings(c, d)
  {
    DecimalFieldInjective(Millis(c.timeout), Millis(d.timeout));
    DecimalFieldInjective(c.maxOutputBytes, d.maxOutputBytes);
    DecimalFieldInjective(c.maxMemoryBytes, d.maxMemoryBytes);
    DecimalFieldInjective(c.maxCpuSeconds, d.maxCpuSeconds);
    DecimalFieldInjective(c.maxOpenFiles, d.maxOpenFiles);
    LabelsDiffer();
    if Settings(c) == Settings(d) {
      forall i | 0 <= i < 7
        ensures Settings(c)[i] == Settings(d)[i]
      {
      }
    }
  }

  /** The argument count is never written, yet equal streams mean the same argument list. */
  lemma ConfigurationPreimageInjective(c: EngineConfig, d: EngineConfig)
    requires ValidConfig(c) && ValidConfig(d)
    ensures Fields(ConfigFields(c)) == Fields(ConfigFields(d))
            <==> && c.arguments == d.arguments
                 && 1000 * c.timeout.seconds + c.timeout.nanos / 1_000_000
                    == 1000 * d.timeout.seconds + d.timeout.nanos / 1_000_000
                 && c.maxOutputBytes == d.maxOutputBytes && c.requireFullGraph == d.requireFullGraph
                 && c.maxMemoryBytes == d.maxMemoryBytes && c.maxCpuSeconds == d.maxCpuSeconds
                 && c.maxOpenFiles == d.maxOpenFiles && c.sandbox == d.sandbox
  {
    var a, b := ConfigFields(c), ConfigFields(d);
    FieldsInjective(a, b);
    SettingsInjective(c, d);
    if a == b {
      assert c.arguments == a[1..|a| - 7] == b[1..|b| - 7] == d.arguments;
      assert Settings(c) == a[|a| - 7..] == b[|b| - 7..] == Settings(d);
    }
  }

  method HashField(hasher: Hasher, ghost before: seq<Buffer>, value: Buffer)
    requires hasher.fed == Fields(before)
    modifies hasher
    ensures hasher.fed == Fields(before + [value])
  {
    hasher.Update(BigEndian(|value|, 8));
    hasher.Update(value);
    FieldsConcat(before, [value]);
    FieldsOne(value);
  }

  /** Spelled out: the tag, every argument in order, the timeout in whole milliseconds, the limits and modes. */
  ghost predicate Tells(values: seq<seq<byte>>, c: EngineConfig) {
    var n := |c.arguments|;
    && |values| == n + 8
    && values[0] == Ascii("secureflow-engine-config-v1")
    && values[1..n + 1] == c.arguments
    && ParseDecimal(values[n + 1]) == 1000 * c.timeout.seconds + c.timeout.nanos / 1_000_000
    && ParseDecimal(values[n + 2]) == c.maxOutputBytes
    && values[n + 3] == Ascii(if c.requireFullGraph then "full-engine-graph-required-v1"
                              else "engine-default-graph-v1")
    && ParseDecimal(values[n + 4]) == c.maxMemoryBytes
    && ParseDecimal(values[n + 5]) == c.maxCpuSeconds
    && ParseDecimal(values[n + 6]) == c.maxOpenFiles
    && values[n + 7] == Ascii(if c.sandbox.Disabled? then "sandbox-disabled"
                              else "sandbox-required-linux-bubblewrap-v1")
  }

  lemma ConfigurationTells(c: EngineConfig)
    requires ValidConfig(c)
    ensures ReadFields(Fields(ConfigFields(c))) == Some(ConfigFields(c)) && Tells(ConfigFields(c), c)
  {
    ReadFieldsUndoes(ConfigFields(c));
    DecimalRoundTrip(Millis(c.timeout));
    DecimalRoundTrip(c.maxOutputBytes);
    DecimalRoundTrip(c.maxMemoryBytes);
    DecimalRoundTrip(c.maxCpuSeconds);
    DecimalRoundTrip(c.maxOpenFiles);
    var values, n, settings := ConfigFields(c), |c.arguments|, Settings(c);
    assert forall i :: 0 <= i < 7 ==> values[n + 1 + i] == settings[i];
    assert values[n + 1] == settings[0] && values[n + 2] == settings[1] && values[n + 3] == settings[2]
           && values[n + 4] == settings[3] && values[n + 5] == settings[4] && values[n + 6] == settings[5]
           && values[n + 7] == settings[6];
  }

  /** What `configuration_sha256` feeds its hasher. */
  method ConfigurationStream(c: EngineConfig) returns (fed: seq<byte>)
    requires ValidConfig(c)
    ensures fed == Fields(ConfigFields(c))
    ensures ReadFields(fed).Some? && Tells(ReadFields(fed).value, c)
  {
    fed := FeedConfiguration(c);
    ConfigurationTells(c);
  }

  method FeedConfiguration(c: EngineConfig) returns (fed: seq<byte>)
    requires ValidConfig(c)
    ensures fed == Fields(ConfigFields(c))
  {
    var hasher := new Hasher();
    HashField(hasher, [], CONFIG_TAG);
    ghost var done := [CONFIG_TAG];
    for i := 0 to |c.arguments|
      invariant done == [CONFIG_TAG] + c.arguments[..i]
      invariant hasher.fed == Fields(done)
    {
      HashField(hasher, done, c.arguments[i]);
      done := done + [c.arguments[i]];
    }
    var settings := Settings(c);
    ghost var head := done;
    for i := 0 to 7
      invariant done == head + settings[..i]
      invariant hasher.fed == Fields(done)
    {
      HashField(hasher, done, settings[i]);
      done := done + [settings[i]];
    }
    assert done == ConfigFields(c);
    fed := hasher.fed;
  }

  // ---------------------------------------------------------------- the bundle identifier

  datatype Profile = Core | Malicious | Full

  const BUNDLE_TAG: Buffer := Ascii("secureflow-catalog-bundle-id-v1")

  function ProfileField(profile: Profile): Buffer {
    match profile
    case Core => Ascii("core")
    case Malicious => Ascii("malicious")
    case Full => Ascii("full")
  }

  lemma ProfileFieldInjective(p: Profile, q: Profile)
    ensures ProfileField(p) == ProfileField(q) <==> p == q
  {
    assert ProfileField(Core)[0] == 99 && ProfileField(Malicious)[0] == 109 && ProfileField(Full)[0] == 102;
  }

  function BundleFields(profile: Profile, compressed: Buffer, database: Buffer, origin: Buffer): seq<Buffer> {
    [BUNDLE_TAG, ProfileField(profile), compressed, database, origin]
  }

  /** What `calculate_bundle_id` feeds its hasher: tag, profile and the three hashes, in this order. */
  method BundleIdStream(profile: Profile, compressed: Buffer, database: Buffer, origin: Buffer)
    returns (fed: seq<byte>)
    ensures fed == Fields(BundleFields(profile, compressed, database, origin))
    ensures ReadFields(fed) == Some([Ascii("secureflow-catalog-bundle-id-v1"),
                                     Ascii(if profile == Core then "core" else if profile == Full then "full"
                                           else "malicious"),
                                     compressed, database, origin])
  {
    var values := BundleFields(profile, compressed, database, origin);
    ReadFieldsUndoes(values);
    var hasher := new Hasher();
    for i := 0 to |values|
      invariant hasher.fed == Fields(values[..i])
    {
      assert values[..i + 1] == values[..i] + [values[i]];
      HashField(hasher, values[..i], values[i]);
    }
    assert values[..|values|] == values;
    fed := hasher.fed;
  }

  lemma BundleIdPreimageInjective(p: Profile, c: Buffer, d: Buffer, o: Buffer,
                                  p': Profile, c': Buffer, d': Buffer, o': Buffer)
    ensures Fields(BundleFields(p, c, d, o)) == Fields(BundleFields(p', c', d', o'))
            <==> (p, c, d, o) == (p', c', d', o')
  {
    var a, b := BundleFields(p, c, d, o), BundleFields(p', c', d', o');
    FieldsInjective(a, b);
    ProfileFieldInjective(p, p');
    if a == b {
      assert a[1] == b[1] && a[2] == b[2] && a[3] == b[3] && a[4] == b[4];
    }
  }
}
