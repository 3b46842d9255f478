/** The server's rolling buffer of encoded frames, bounded by a count and by a total size. */
module RollingBuffers {
  import opened FusionTypes

  datatype Bounds = Bounds(
    captureIntervalMs: int, windowSeconds: int, maxBytesPerEntry: int, maxEntries: int, maxTotalBytes: int)
  {
    predicate Valid() {
      && 200 <= captureIntervalMs <= 500
      && 10 <= windowSeconds <= 15
      && 0 < maxEntries && 0 < maxBytesPerEntry && 0 < maxTotalBytes
    }
  }

  /** A configuration that passed its own validation. */
  type Config = b: Bounds | b.Valid()
    witness Bounds(300, 15, 1500000, 60, 90000000)

  /** None: construction raises. */
  function MakeConfig(b: Bounds): (c: Option<Config>)
    ensures c.Some? ==> c.value == b && c.value.maxEntries > 0 && c.value.maxTotalBytes > 0
    ensures c == None ==> !b.Valid()
  {
    if b.Valid() then Some(b) else None
  }

  /** sizeBytes is declared by the client. */
  datatype Frame = Frame(capturedAt: int, encoded: string, encoding: string, sizeBytes: int) {
    predicate Valid() {
      0 <= sizeBytes && encoding in {"jpeg", "png", "webp"} && encoded != ""
    }
  }

  type Entry = f: Frame | f.Valid()
    witness Frame(0, "A", "jpeg", 0)

  function MakeEntry(f: Frame): (e: Option<Entry>)
    ensures e.Some? ==> e.value == f && |f.encoded| > 0 && f.sizeBytes >= 0
    ensures e == None ==> !f.Valid()
  {
    if f.Valid() then Some(f) else None
  }

  function CountChar(s: string, c: char): (n: nat)
    ensures n <= |s|
  {
    if |s| == 0 then 0 else CountChar(s[1..], c) + (if s[0] == c then 1 else 0)
  }

  /** Three quarters of the characters that are not padding, rounded up. */
  function ApproxDecodedSize(encoded: string): nat {
    ((|encoded| - CountChar(encoded, '=')) * 3 + 3) / 4
  }

  lemma {:induction false} CountConcat(s: string, t: string, c: char)
    ensures CountChar(s + t, c) == CountChar(s, c) + CountChar(t, c)
  {
    if |s| == 0 {
      assert s + t == t;
    } else {
      assert (s + t)[1..] == s[1..] + t;
      CountConcat(s[1..], t, c);
    }
  }

  lemma {:induction false} CountNone(s: string, c: char)
    requires c !in s
    ensures CountChar(s, c) == 0
  {
    if |s| > 0 {
      CountNone(s[1..], c);
    }
  }

  /** For the Base64 text of 3 * groups - padding bytes (section 4 of RFC 4648) the estimate is exact
      without padding and one too high with it. */
  lemma {:induction false} EstimateIsClose(data: string, padding: nat, groups: nat)
    requires '=' !in data && padding <= 2 && |data| + padding == 4 * groups
    ensures var encoded := data + if padding == 0 then "" else if padding == 1 then "=" else "==";
      ApproxDecodedSize(encoded) == 3 * groups - padding + if padding == 0 then 0 else 1
  {
    CountNone(data, '=');
    CountConcat(data, "", '=');
    CountConcat(data, "=", '=');
    CountConcat(data, "==", '=');
    assert CountChar("=", '=') == 1 && CountChar("==", '=') == 2 by {
      assert "="[1..] == "" && "=="[1..] == "=";
    }
  }

  // -------------------------------------------------------------------------
  // Longest fitting suffix
  // -------------------------------------------------------------------------

  function Total(es: seq<Entry>): nat {
    if |es| == 0 then 0 else es[0].sizeBytes + Total(es[1..])
  }

  predicate Fits(es: seq<Entry>, c: Config) {
    |es| <= c.maxEntries && Total(es) <= c.maxTotalBytes
  }

  function Longest(es: seq<Entry>, c: Config): seq<Entry> {
    if |es| == 0 || Fits(es, c) then es else Longest(es[1..], c)
  }

  lemma {:induction false} TotalShrinks(es: seq<Entry>, k: nat)
    requires k <= |es|
    ensures Total(es[k..]) <= Total(es)
    decreases k
  {
    if k == 0 {
      assert es[0..] == es;
    } else {
      TotalShrinks(es[1..], k - 1);
      assert es[1..][k - 1..] == es[k..];
    }
  }

  lemma {:induction false} TotalSnoc(es: seq<Entry>, e: Entry)
    ensures Total(es + [e]) == Total(es) + e.sizeBytes && Total([]) == 0
  {
    if |es| == 0 {
      assert es + [e] == [e];
    } else {
      TotalSnoc(es[1..], e);
      assert (es + [e])[1..] == es[1..] + [e];
    }
  }

  /** Optimality: it is a suffix, it meets both caps, and every longer suffix breaks one. */
  lemma {:induction false} LongestIsOptimal(es: seq<Entry>, c: Config)
    ensures var r := Longest(es, c);
      && |r| <= |es| && r == es[|es| - |r|..] && Fits(r, c)
      && forall k :: 0 <= k < |es| - |r| ==> !Fits(es[k..], c)
    ensures var r := Longest(es, c);
      && |r| <= c.maxEntries && Total(r) <= c.maxTotalBytes
      && forall k :: 0 <= k < |es| - |r| ==> |es| - k > c.maxEntries || Total(es[k..]) > c.maxTotalBytes
    decreases |es|
  {
    if |es| > 0 && !Fits(es, c) {
      LongestIsOptimal(es[1..], c);
      var r := Longest(es, c);
      assert es[1..][|es| - 1 - |r|..] == es[|es| - |r|..];
      forall k | 0 <= k < |es| - |r|
        ensures !Fits(es[k..], c)
      {
        if k == 0 {
          assert es[0..] == es;
        } else {
          assert es[1..][k - 1..] == es[k..];
        }
      }
    } else {
      assert es[0..] == es;
    }
  }

  lemma {:induction false} LongestNone(es: seq<Entry>, n: nat, c: Config)
    requires n <= |es| && forall k :: 0 <= k < n ==> !Fits(es[k..], c)
    ensures Longest(es, c) == Longest(es[n..], c)
    decreases n
  {
    if n > 0 && |es| > 0 {
      assert es[0..] == es;
      forall k | 0 <= k < n - 1
        ensures !Fits(es[1..][k..], c)
      {
        assert es[1..][k..] == es[k + 1..];
      }
      LongestNone(es[1..], n - 1, c);
      assert es[1..][n - 1..] == es[n..];
    } else {
      assert es[0..] == es;
    }
  }

  /** One more entry: what was evicted before would be evicted again. */
  lemma {:induction false} LongestStep(h: seq<Entry>, e: Entry, c: Config)
    ensures Longest(h + [e], c) == Longest(Longest(h, c) + [e], c)
  {
    hide Longest, Total;
    LongestIsOptimal(h, c);
    var n := |h| - |Longest(h, c)|;
    forall k | 0 <= k < n
      ensures !Fits((h + [e])[k..], c)
    {
      assert (h + [e])[k..] == h[k..] + [e];
      TotalSnoc(h[k..], e);
      assert !Fits(h[k..], c);
    }
    LongestNone(h + [e], n, c);
    assert (h + [e])[n..] == h[n..] + [e];
  }

  // -------------------------------------------------------------------------
  // The buffer
  // -------------------------------------------------------------------------

  class InMemoryRollingBuffer {
    const config: Config
    var entries: seq<Entry>
    ghost var accepted: seq<Entry>

    ghost predicate Valid()
      reads this
    {
      entries == Longest(accepted, config)
    }

    constructor (config: Config)
      ensures Valid() && this.config == config && accepted == []
    {
      this.config := config;
      entries, accepted := [], [];
    }

    /** A configuration that does not validate is refused. */
    static method Create(b: Bounds) returns (buffer: Option<InMemoryRollingBuffer>)
      ensures buffer.Some? <==>
        && 200 <= b.captureIntervalMs <= 500 && 10 <= b.windowSeconds <= 15
        && 0 < b.maxEntries && 0 < b.maxBytesPerEntry && 0 < b.maxTotalBytes
      ensures buffer.Some? ==> fresh(buffer.value) && buffer.value.Valid() && buffer.value.config == b
      ensures buffer.Some? ==> buffer.value.accepted == []
    {
      var config := MakeConfig(b);
      if config == None {
        return None;
      }
      var r := new InMemoryRollingBuffer(config.value);
      buffer := Some(r);
    }

    /** Builds an entry from what the client sent and appends it; either may be refused, and then
        nothing changes. */
    method Receive(f: Frame) returns (ok: bool)
      requires Valid()
      modifies this
      ensures Valid()
      ensures ok == (
        && 0 <= f.sizeBytes && (f.encoding == "jpeg" || f.encoding == "png" || f.encoding == "webp") && f.encoded != ""
        && ApproxDecodedSize(f.encoded) <= config.maxBytesPerEntry)
      ensures !ok ==> accepted == old(accepted) && entries == old(entries)
      ensures ok ==> f.Valid() && accepted == old(accepted) + [f]
    {
      hide ApproxDecodedSize, Longest;
      var entry := MakeEntry(f);
      if entry == None {
        return false;
      }
      ok := Append(entry.value);
    }

    /** An entry whose payload is too large is refused and changes nothing. */
    method Append(entry: Entry) returns (ok: bool)
      requires Valid()
      modifies this
      ensures Valid()
      ensures ok == (ApproxDecodedSize(entry.encoded) <= config.maxBytesPerEntry)
      ensures accepted == if ok then old(accepted) + [entry] else old(accepted)
      ensures !ok ==> entries == old(entries)
    {
      hide ApproxDecodedSize;
      if ApproxDecodedSize(entry.encoded) > config.maxBytesPerEntry {
        return false;
      }
      LongestStep(accepted, entry, config);
      entries := entries + [entry];
      accepted := accepted + [entry];
      ok := true;
      EvictOldest();
    }

    /** The eviction loop. It ends even when the newest entry alone is over the cap: the empty
        buffer meets both. */
    method EvictOldest()
      modifies this`entries
      ensures entries == Longest(old(entries), config)
    {
      while true
        invariant Longest(entries, config) == Longest(old(entries), config)
        decreases |entries|
      {
        var bytes := TotalBytes();
        if |entries| <= config.maxEntries && bytes <= config.maxTotalBytes {
          break;
        }
        entries := entries[1..];
      }
    }

    method TotalBytes() returns (bytes: nat)
      ensures bytes == Total(entries)
    {
      bytes := 0;
      for i := 0 to |entries|
        invariant bytes == Total(entries[..i])
      {
        TotalSnoc(entries[..i], entries[i]);
        assert entries[..i + 1] == entries[..i] + [entries[i]];
        bytes := bytes + entries[i].sizeBytes;
      }
      assert entries[..|entries|] == entries;
    }

    /** The oldest capture time held: that of the first entry from which on all accepted ones fit
        both caps, while one more would not. */
    function WindowStart(): (start: Option<int>)
      requires Valid()
      reads this
      ensures start.Some? ==>
        var k := |accepted| - |entries|;
        && 0 <= k < |accepted| && start.value == accepted[k].capturedAt
        && Fits(accepted[k..], config) && (k > 0 ==> !Fits(accepted[k - 1..], config))
      ensures start == None ==> entries == []
    {
      LongestIsOptimal(accepted, config);
      if |entries| > 0 then Some(entries[0].capturedAt) else None
    }

    /** The newest capture time held: that of the last accepted entry, unless that one alone is
        over the total-size cap. */
    function WindowEnd(): (end: Option<int>)
      requires Valid()
      reads this
      ensures end == if |accepted| == 0 || accepted[|accepted| - 1].sizeBytes > config.maxTotalBytes then None
        else Some(accepted[|accepted| - 1].capturedAt)
    {
      NewestStays(accepted, config);
      if |entries| > 0 then Some(entries[|entries| - 1].capturedAt) else None
    }
  }

  /** The newest entry is held exactly when it fits by itself; if it does not, nothing is held. */
  lemma {:induction false} NewestStays(es: seq<Entry>, c: Config)
    ensures var r := Longest(es, c);
      && (r != [] <==> |es| > 0 && es[|es| - 1].sizeBytes <= c.maxTotalBytes)
      && (r != [] ==> r[|r| - 1] == es[|es| - 1])
  {
    hide Longest;
    LongestIsOptimal(es, c);
    var r := Longest(es, c);
    if |es| > 0 {
      var last := es[|es| - 1..];
      assert last == [es[|es| - 1]] && last[1..] == [];
      assert Total(last) == es[|es| - 1].sizeBytes;
      if |r| > 0 {
        TotalShrinks(r, |r| - 1);
        assert r[|r| - 1..] == last;
      }
    }
  }
}
