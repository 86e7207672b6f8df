/**
 The strings the command line hashes: telemetry payloads and commitments. Hashing hides them, so
 two of them must never coincide by accident of formatting.
 */
module Preimages {
  function Digit(n: nat): char
    requires n < 10
  {
    '0' + n as char
  }

  predicate Digits(s: string) {
    forall i :: 0 <= i < |s| ==> '0' <= s[i] <= '9'
  }

  /** What %d prints for a natural number. */
  function Decimal(n: nat): (s: string)
    ensures s != [] && Digits(s)
  {
    if n < 10 then [Digit(n)] else Decimal(n / 10) + [Digit(n % 10)]
  }

  function DecimalValue(s: string): nat
    requires Digits(s)
  {
    if s == [] then 0 else 10 * DecimalValue(s[..|s| - 1]) + (s[|s| - 1] as int - '0' as int)
  }

  lemma {:induction false} DecimalRoundTrip(n: nat)
    ensures DecimalValue(Decimal(n)) == n
  {
    if n >= 10 {
      DecimalRoundTrip(n / 10);
      assert Decimal(n)[..|Decimal(n)| - 1] == Decimal(n / 10);
    }
  }

  /** What %d prints for a signed number. */
  function Signed(n: int): (s: string)
    ensures ':' !in s
  {
    if n < 0 then "-" + Decimal(-n) else Decimal(n)
  }

  lemma SignedInjective(m: int, n: int)
    requires Signed(m) == Signed(n)
    ensures m == n
  {
    DecimalRoundTrip(if m < 0 then -m else m);
    DecimalRoundTrip(if n < 0 then -n else n);
    assert m < 0 <==> Signed(m)[0] == '-';
    assert n < 0 <==> Signed(n)[0] == '-';
    if m < 0 {
      assert Signed(m)[1..] == Decimal(-m) && Signed(n)[1..] == Decimal(-n);
    }
  }

  /** A string splits in one way only at its last colon, */
  lemma LastColon(a: string, b: string, a': string, b': string)
    requires a + ":" + b == a' + ":" + b' && ':' !in b && ':' !in b'
    ensures a == a' && b == b'
  {
    var s, s' := a + ":" + b, a' + ":" + b';
    assert s[|a|] == ':' && s'[|a'|] == ':';
    assert forall k :: |a| < k < |s| ==> s[k] == b[k - |a| - 1] && s[k] != ':';
    assert forall k :: |a'| < k < |s'| ==> s'[k] == b'[k - |a'| - 1] && s'[k] != ':';
    assert a == s[..|a|] && a' == s'[..|a'|] && b == s[|a| + 1..] && b' == s'[|a'| + 1..];
  }

  /** and in one way only at its first colon, or first of any other mark. */
  lemma FirstMark(mark: char, a: string, b: string, a': string, b': string)
    requires a + [mark] + b == a' + [mark] + b' && mark !in a && mark !in a'
    ensures a == a' && b == b'
  {
    var s, s' := a + [mark] + b, a' + [mark] + b';
    assert s[|a|] == mark && s'[|a'|] == mark;
    assert forall k :: 0 <= k < |a| ==> s[k] == a[k] && s[k] != mark;
    assert forall k :: 0 <= k < |a'| ==> s'[k] == a'[k] && s'[k] != mark;
    assert a == s[..|a|] && a' == s'[..|a'|] && b == s[|a| + 1..] && b' == s'[|a'| + 1..];
  }

  /** The telemetry payload, for a value already rendered by %f. */
  function TelemetryPayload(name: string, value: string, timestamp: int): string {
    "telemetry:" + name + ":" + value + ":" + Signed(timestamp)
  }

  function CommitmentPreimage(kind: string, value: string): string {
    "skill-validation:mvp:" + kind + ":v1:" + value
  }

  const KINDS: set<string> := {"subject", "skill", "program", "evidence"}

  /** Equal payloads come from equal metrics, whatever colons the metric name contains. */
  lemma TelemetryPayloadInjective(name: string, value: string, timestamp: int, name': string, value': string, timestamp': int)
    requires ':' !in value && ':' !in value'
    requires TelemetryPayload(name, value, timestamp) == TelemetryPayload(name', value', timestamp')
    ensures name == name' && value == value' && timestamp == timestamp'
  {
    var tag := "telemetry:";
    LastColon(tag + name + ":" + value, Signed(timestamp), tag + name' + ":" + value', Signed(timestamp'));
    LastColon(tag + name, value, tag + name', value');
    assert name == (tag + name)[|tag|..] && name' == (tag + name')[|tag|..];
    SignedInjective(timestamp, timestamp');
  }

  /** Commitments of different kinds, or of different values, have different preimages. */
  lemma CommitmentPreimageInjective(kind: string, value: string, kind': string, value': string)
    requires kind in KINDS && kind' in KINDS
    requires CommitmentPreimage(kind, value) == CommitmentPreimage(kind', value')
    ensures kind == kind' && value == value'
  {
    var tag := "skill-validation:mvp:";
    assert kind + ":" + ("v1:" + value) == CommitmentPreimage(kind, value)[|tag|..];
    assert kind' + ":" + ("v1:" + value') == CommitmentPreimage(kind', value')[|tag|..];
    FirstMark(':', kind, "v1:" + value, kind', "v1:" + value');
    assert value == ("v1:" + value)[3..] && value' == ("v1:" + value')[3..];
  }

  /** No telemetry payload can be passed off as a commitment. */
  lemma TelemetryIsNoCommitment(name: string, value: string, timestamp: int, kind: string, value': string)
    ensures TelemetryPayload(name, value, timestamp) != CommitmentPreimage(kind, value')
  {
    assert TelemetryPayload(name, value, timestamp)[0] == 't' && CommitmentPreimage(kind, value')[0] == 's';
  }
}
