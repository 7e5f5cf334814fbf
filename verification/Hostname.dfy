/** The shortening of host names for routes (controllers/argocd/route.go). Go strings are
    byte strings, so lengths are in octets. */
module Hostname {
  import opened Lists

  newtype Octet = x: int | 0 <= x < 256

  const DOT: Octet := 46
  const MAX_LABEL := 63
  const MAX_HOSTNAME := 253
  const MIN_FIRST_LABEL := 20

  datatype Result = Ok(hostname: seq<Octet>) | Err

  function Min(a: int, b: int): int { if a < b then a else b }
  function Max(a: int, b: int): int { if a < b then b else a }

  function Labels(hostname: seq<Octet>): (labels: seq<seq<Octet>>)
    ensures |labels| >= 1
  {
    Split(hostname, DOT)
  }

  /** Octets that follow the first label, its separating dot included. */
  function TailLength(hostname: seq<Octet>): int {
    |hostname| - |Labels(hostname)[0]|
  }

  predicate TailLabelsFit(hostname: seq<Octet>) {
    forall i :: 1 <= i < |Labels(hostname)| ==> |Labels(hostname)[i]| <= MAX_LABEL
  }

  /** What an over-long host name is turned into, without any loop. */
  function Shortened(hostname: seq<Octet>): Result {
    if |hostname| <= MAX_HOSTNAME then Ok(hostname)
    else
      var labels := Labels(hostname);
      if !TailLabelsFit(hostname) || |labels[0]| < MIN_FIRST_LABEL then Err
      else Ok(Join(Trimmed(labels, FirstLength(hostname)), DOT))
  }

  /** Length kept of the first label. */
  function FirstLength(hostname: seq<Octet>): (n: int)
    ensures |Labels(hostname)[0]| >= MIN_FIRST_LABEL ==> MIN_FIRST_LABEL <= n <= |Labels(hostname)[0]|
  {
    Max(MIN_FIRST_LABEL, Min(|Labels(hostname)[0]|, Min(MAX_LABEL, MAX_HOSTNAME - TailLength(hostname))))
  }

  method ShortenHostname(hostname: seq<Octet>) returns (r: Result)
    ensures r == Shortened(hostname)
  {
    if hostname == [] {
      return Ok([]);
    }
    if |hostname| <= MAX_HOSTNAME {
      return Ok(hostname);
    }
    var labels := Split(hostname, DOT);
    ghost var original := labels;
    TrimmedInPlace(original, Min(|original[0]|, MAX_LABEL));
    if |labels[0]| > MAX_LABEL {
      labels := labels[0 := labels[0][..MAX_LABEL]];
    }
    assert labels == Trimmed(original, Min(|original[0]|, MAX_LABEL));
    var fit := LaterLabelsFit(labels);
    assert forall j :: 1 <= j < |labels| ==> labels[j] == original[j];
    if !fit {
      return Err;
    }
    var result := Join(labels, DOT);
    ghost var n := |labels[0]|;
    TrimmedInPlace(labels, n);
    if |result| > MAX_HOSTNAME {
      labels, result, n := TrimFirst(labels, result);
      if |labels[0]| < MIN_FIRST_LABEL {
        return Err;
      }
    }
    TrimmedAgain(hostname, n);
    KeptLength(hostname, n);
    return Ok(result);
  }

  method LaterLabelsFit(labels: seq<seq<Octet>>) returns (fit: bool)
    requires |labels| >= 1
    ensures fit <==> forall i :: 1 <= i < |labels| ==> |labels[i]| <= MAX_LABEL
  {
    for i := 1 to |labels|
      invariant forall j :: 1 <= j < i ==> |labels[j]| <= MAX_LABEL
    {
      if |labels[i]| > MAX_LABEL {
        return false;
      }
    }
    return true;
  }

  /** Takes octets off the first label until the name fits or the label has no more than 20. */
  method TrimFirst(original: seq<seq<Octet>>, name: seq<Octet>)
    returns (labels: seq<seq<Octet>>, result: seq<Octet>, ghost n: nat)
    requires |original| >= 1 && name == Join(original, DOT)
    ensures n <= |original[0]| && labels == Trimmed(original, n) && result == Join(labels, DOT)
    ensures |result| == n + |name| - |original[0]|
    ensures |result| <= MAX_HOSTNAME || n <= 20
    ensures n < |original[0]| ==> |result| + 1 > MAX_HOSTNAME && n >= 20
  {
    labels, result, n := original, name, |original[0]|;
    TrimmedInPlace(original, n);
    while |result| > MAX_HOSTNAME && |labels[0]| > 20
      invariant n <= |original[0]| && labels == Trimmed(original, n)
      invariant result == Join(labels, DOT) && |result| == n + |name| - |original[0]|
      invariant n < |original[0]| ==> |result| + 1 > MAX_HOSTNAME && n >= 20
      decreases |labels[0]|
    {
      TrimmedOnce(original, n);
      labels := labels[0 := labels[0][..|labels[0]| - 1]];
      result := Join(labels, DOT);
      n := n - 1;
      TrimmedLength(original, n);
    }
  }

  /** Lengths after the first label has been cut to 63 octets and then to `n`. */
  lemma TrimmedAgain(hostname: seq<Octet>, n: nat)
    requires n <= Min(|Labels(hostname)[0]|, MAX_LABEL)
    ensures var labels := Labels(hostname); var cut := Trimmed(labels, Min(|labels[0]|, MAX_LABEL));
      && Trimmed(cut, n) == Trimmed(labels, n)
      && |Join(cut, DOT)| == |cut[0]| + TailLength(hostname)
  {
    var labels := Labels(hostname);
    JoinOfSplit(hostname, DOT);
    TrimmedLength(labels, Min(|labels[0]|, MAX_LABEL));
    assert labels[0][..Min(|labels[0]|, MAX_LABEL)][..n] == labels[0][..n];
  }

  /** The loop stops at the length that the closed form gives. */
  lemma KeptLength(hostname: seq<Octet>, n: nat)
    requires |hostname| > MAX_HOSTNAME && TailLabelsFit(hostname)
    requires MIN_FIRST_LABEL <= n <= Min(|Labels(hostname)[0]|, MAX_LABEL)
    requires n + TailLength(hostname) <= MAX_HOSTNAME || n == MIN_FIRST_LABEL
    requires n == Min(|Labels(hostname)[0]|, MAX_LABEL) || n + 1 + TailLength(hostname) > MAX_HOSTNAME
    ensures Shortened(hostname) == Ok(Join(Trimmed(Labels(hostname), n), DOT))
  {
    assert n == FirstLength(hostname);
  }

  /** The labels with the first one cut to `n` octets. */
  function Trimmed(labels: seq<seq<Octet>>, n: nat): seq<seq<Octet>>
    requires |labels| >= 1 && n <= |labels[0]|
  {
    [labels[0][..n]] + labels[1..]
  }

  lemma TrimmedInPlace(labels: seq<seq<Octet>>, n: nat)
    requires |labels| >= 1 && n <= |labels[0]|
    ensures labels[0 := labels[0][..n]] == Trimmed(labels, n)
    ensures n == |labels[0]| ==> Trimmed(labels, n) == labels
  {
    assert labels == [labels[0]] + labels[1..];
    assert n == |labels[0]| ==> labels[0][..n] == labels[0];
  }

  lemma TrimmedLength(labels: seq<seq<Octet>>, n: nat)
    requires |labels| >= 1 && n <= |labels[0]|
    ensures |Join(Trimmed(labels, n), DOT)| == n + |Join(labels, DOT)| - |labels[0]|
  {
    JoinLength(labels, labels[0][..n], DOT);
  }

  lemma TrimmedOnce(labels: seq<seq<Octet>>, n: nat)
    requires |labels| >= 1 && 0 < n <= |labels[0]|
    ensures var cut := Trimmed(labels, n); cut[0 := cut[0][..n - 1]] == Trimmed(labels, n - 1)
  {
    assert labels[0][..n][..n - 1] == labels[0][..n - 1];
  }

  /** The labels and length of a successful result. */
  lemma ShortenedParts(hostname: seq<Octet>)
    requires |hostname| > MAX_HOSTNAME && Shortened(hostname).Ok?
    ensures var r := Shortened(hostname).hostname; var labels := Labels(hostname);
      && Labels(r) == [labels[0][..FirstLength(hostname)]] + labels[1..]
      && |r| == FirstLength(hostname) + TailLength(hostname)
      && TailLength(r) == TailLength(hostname)
  {
    var labels := Labels(hostname);
    var first := labels[0][..FirstLength(hostname)];
    JoinOfSplit(hostname, DOT);
    assert Free([first] + labels[1..], DOT);
    SplitOfJoin([first] + labels[1..], DOT);
    JoinLength(labels, first, DOT);
  }

  /** Outcome of the operation on an over-long name, with the exact error condition; only
      the first label ever changes, and it becomes a prefix of itself of at most 63 octets. */
  lemma ShortenedOutcome(hostname: seq<Octet>)
    requires |hostname| > MAX_HOSTNAME
    ensures Shortened(hostname).Err? <==>
      (exists i :: 1 <= i < |Labels(hostname)| && |Labels(hostname)[i]| > MAX_LABEL)
      || |Labels(hostname)[0]| < MIN_FIRST_LABEL
    ensures Shortened(hostname).Ok? ==>
      var labels, short := Labels(hostname), Labels(Shortened(hostname).hostname);
      short[1..] == labels[1..] && short[0] <= labels[0] && MIN_FIRST_LABEL <= |short[0]| <= MAX_LABEL
  {
    if Shortened(hostname).Ok? {
      ShortenedParts(hostname);
    }
  }

  /** The promised limit of 253 octets is met exactly when at most 233 octets follow the
      first label. */
  lemma FitsIff(hostname: seq<Octet>)
    requires |hostname| > MAX_HOSTNAME && Shortened(hostname).Ok?
    ensures |Shortened(hostname).hostname| <= MAX_HOSTNAME <==> TailLength(hostname) <= MAX_HOSTNAME - MIN_FIRST_LABEL
  {
    ShortenedParts(hostname);
  }

  /** When it fits, no longer prefix of the first label would: any host name with the same
      tail and a first label that is a prefix of the original one, within both limits, is at
      most as long. */
  lemma LongestFit(hostname: seq<Octet>, keep: int)
    requires |hostname| > MAX_HOSTNAME && Shortened(hostname).Ok?
    requires |Shortened(hostname).hostname| <= MAX_HOSTNAME
    requires 0 <= keep <= Min(MAX_LABEL, |Labels(hostname)[0]|)
    requires |Join([Labels(hostname)[0][..keep]] + Labels(hostname)[1..], DOT)| <= MAX_HOSTNAME
    ensures keep <= |Labels(Shortened(hostname).hostname)[0]|
  {
    ShortenedParts(hostname);
    JoinOfSplit(hostname, DOT);
    JoinLength(Labels(hostname), Labels(hostname)[0][..keep], DOT);
  }

  /** Shortening a shortened name changes nothing, even one that is still over the limit. */
  lemma ShortenTwice(hostname: seq<Octet>)
    requires Shortened(hostname).Ok?
    ensures Shortened(Shortened(hostname).hostname) == Shortened(hostname)
  {
    var r := Shortened(hostname).hostname;
    if |hostname| > MAX_HOSTNAME && |r| > MAX_HOSTNAME {
      ShortenedParts(hostname);
      var labels := Labels(r);
      assert forall i :: 1 <= i < |labels| ==> labels[i] == Labels(hostname)[i];
      assert labels[0][..FirstLength(r)] == labels[0];
      assert [labels[0][..FirstLength(r)]] + labels[1..] == labels;
      JoinOfSplit(r, DOT);
    }
  }

  function Letters(n: nat): (octets: seq<Octet>)
    ensures |octets| == n && DOT !in octets
  {
    seq(n, _ => 97)
  }

  /** A host name whose labels are all legal is returned longer than 253 octets: the limit in
      the comment of the operation is not met. */
  lemma OverlongResult() returns (hostname: seq<Octet>)
    ensures forall i :: 0 <= i < |Labels(hostname)| ==> |Labels(hostname)[i]| <= MAX_LABEL
    ensures Shortened(hostname).Ok? && |Shortened(hostname).hostname| == 276
  {
    var labels := [Letters(63), Letters(63), Letters(63), Letters(63), Letters(63)];
    hostname := Join(labels, DOT);
    SplitOfJoin(labels, DOT);
    assert labels[1..] == [Letters(63), Letters(63), Letters(63), Letters(63)];
    assert labels[1..][1..] == [Letters(63), Letters(63), Letters(63)];
    assert labels[1..][1..][1..] == [Letters(63), Letters(63)];
    assert labels[1..][1..][1..][1..] == [Letters(63)];
    assert |hostname| == 5 * 63 + 4;
    ShortenedParts(hostname);
  }
}
