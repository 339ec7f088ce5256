/**
 * Recognising the header row of an imported word list: each header is
 * lower-cased, trimmed and looked up in the alias lists of the three
 * columns; the "word" and "description" columns are required.
 */
module FileUpload {
  import opened Wrappers
  import opened Strings

  /** The column keys, in the order the alias table lists them. */
  const HEADER_KEYS: seq<string> := ["word", "description", "example"]

  const MISSING_COLUMNS: string := "Missing required columns: word or description"

  /** The header spellings accepted for each column key. */
  function Aliases(key: string): seq<string>
  {
    if key == "word" then ["word", "term", "vocab"]
    else if key == "description" then ["desc", "description", "meaning", "definition"]
    else if key == "example" then ["example", "usage", "sentence"]
    else []
  }

  /** A header as it is compared: lower-cased, then trimmed. */
  function Normalize(header: string): string
  {
    Trim(ToLower(header))
  }

  /** Whether the normalized header `name` is one of the spellings of `key`. */
  predicate IsAlias(key: string, name: string)
  {
    name in Aliases(key)
  }

  predicate Matches(key: string, header: string)
  {
    IsAlias(key, Normalize(header))
  }

  /** The normalized form of every header, position by position. */
  function NormalizeAll(headers: seq<string>): (names: seq<string>)
    ensures |names| == |headers|
    ensures forall i :: 0 <= i < |headers| ==> names[i] == Normalize(headers[i])
  {
    seq(|headers|, i requires 0 <= i < |headers| => Normalize(headers[i]))
  }

  /** No spelling belongs to two columns, so a header names at most one key. */
  lemma AliasesDisjoint(header: string, k1: string, k2: string)
    requires k1 in HEADER_KEYS && k2 in HEADER_KEYS
    requires Matches(k1, header) && Matches(k2, header)
    ensures k1 == k2
  {
  }

  /** Only the three column keys have aliases. */
  lemma OnlyKnownKeysMatch(key: string, header: string)
    requires Matches(key, header)
    ensures key in HEADER_KEYS
  {
  }

  /** A header in another case and padded with white space, "  Meaning\r", still names the description column. */
  lemma PaddedHeaderMatches()
    ensures Matches("description", "  Meaning\r")
  {
    var lower := ToLower("  Meaning\r");
    assert lower == "  meaning\r";
    assert TrimStart(lower) == TrimStart(lower[1..]) == TrimStart(lower[2..]) == "meaning\r";
    assert TrimEnd("meaning\r") == TrimEnd("meaning") == "meaning";
  }

  /** An upper-case header, "TERM", still names the word column. */
  lemma UpperHeaderMatches()
    ensures Matches("word", "TERM")
  {
    assert ToLower("TERM") == "term";
    assert TrimStart("term") == "term";
    assert TrimEnd("term") == "term";
  }

  /** The position of the last name of `names` that is a spelling of `key`. */
  function LastMatch(names: seq<string>, key: string): (r: Option<nat>)
    ensures r.Some? ==>
      && r.value < |names| && IsAlias(key, names[r.value])
      && forall j :: r.value < j < |names| ==> !IsAlias(key, names[j])
    ensures r.None? ==> forall j :: 0 <= j < |names| ==> !IsAlias(key, names[j])
  {
    if |names| == 0 then None
    else if IsAlias(key, names[|names| - 1]) then Some(|names| - 1)
    else LastMatch(names[..|names| - 1], key)
  }

  /** Each key mapped to the position of the last name spelling it. */
  function IndexesOf(names: seq<string>): map<string, nat>
  {
    map k | k in HEADER_KEYS && LastMatch(names, k).Some? :: LastMatch(names, k).value
  }

  /** The header map, or the missing-columns error when "word" or "description" has no header. */
  function NormalizedHeaders(headers: seq<string>): Result<map<string, nat>, string>
  {
    var m := IndexesOf(NormalizeAll(headers));
    if "word" in m && "description" in m then Ok(m) else Err(MISSING_COLUMNS)
  }

  /** A key is in the map exactly when some header matches it. */
  lemma KeyPresentIff(headers: seq<string>, key: string)
    requires key in HEADER_KEYS
    ensures key in IndexesOf(NormalizeAll(headers))
      <==> exists i :: 0 <= i < |headers| && Matches(key, headers[i])
  {
    var names := NormalizeAll(headers);
    var lm := LastMatch(names, key);
    if lm.Some? {
      assert Matches(key, headers[lm.value]);
    } else {
      forall i | 0 <= i < |headers| ensures !Matches(key, headers[i]) {
        assert names[i] == Normalize(headers[i]);
      }
    }
  }

  /** The headers are accepted exactly when both required columns have a header; otherwise the error names them. */
  lemma AcceptedIff(headers: seq<string>)
    ensures NormalizedHeaders(headers).Ok? <==>
      (exists i :: 0 <= i < |headers| && Matches("word", headers[i]))
      && (exists j :: 0 <= j < |headers| && Matches("description", headers[j]))
    ensures NormalizedHeaders(headers).Err? ==> NormalizedHeaders(headers).error == MISSING_COLUMNS
  {
    KeyPresentIff(headers, "word");
    KeyPresentIff(headers, "description");
  }

  /** Every index in the map points at the last header that matches its key. */
  lemma IndexesAreLastMatches(headers: seq<string>)
    ensures var m := IndexesOf(NormalizeAll(headers));
      forall k :: k in m ==>
        && k in HEADER_KEYS
        && m[k] < |headers|
        && Matches(k, headers[m[k]])
        && forall j :: m[k] < j < |headers| ==> !Matches(k, headers[j])
  {
    var names := NormalizeAll(headers);
    var m := IndexesOf(names);
    forall k | k in m
      ensures m[k] < |headers| && Matches(k, headers[m[k]])
      ensures forall j :: m[k] < j < |headers| ==> !Matches(k, headers[j])
    {
      assert m[k] == LastMatch(names, k).value;
      forall j | m[k] < j < |headers| ensures !Matches(k, headers[j]) {
        assert names[j] == Normalize(headers[j]);
      }
    }
  }

  /** Inserting a header that does not match `key` does not change whether some header matches it. */
  lemma InsertKeepsMatch(headers: seq<string>, extra: string, p: nat, key: string)
    requires p <= |headers|
    requires !Matches(key, extra)
    ensures var longer := headers[..p] + [extra] + headers[p..];
      (exists i :: 0 <= i < |longer| && Matches(key, longer[i]))
        <==> (exists i :: 0 <= i < |headers| && Matches(key, headers[i]))
  {
    var longer := headers[..p] + [extra] + headers[p..];
    assert forall i :: 0 <= i < p ==> longer[i] == headers[i];
    assert forall i :: p < i < |longer| ==> longer[i] == headers[i - 1];
    if i :| 0 <= i < |longer| && Matches(key, longer[i]) {
      if i < p {
        assert Matches(key, headers[i]);
      } else {
        assert Matches(key, headers[i - 1]);
      }
    }
    if i :| 0 <= i < |headers| && Matches(key, headers[i]) {
      if i < p {
        assert Matches(key, longer[i]);
      } else {
        assert Matches(key, longer[i + 1]);
      }
    }
  }

  /**
   * The "example" column is optional: a header that names neither word nor
   * description, inserted anywhere, never changes acceptance.
   */
  lemma ExampleIsOptional(headers: seq<string>, extra: string, p: nat)
    requires p <= |headers|
    requires !Matches("word", extra) && !Matches("description", extra)
    ensures NormalizedHeaders(headers[..p] + [extra] + headers[p..]).Ok? == NormalizedHeaders(headers).Ok?
  {
    AcceptedIff(headers);
    AcceptedIff(headers[..p] + [extra] + headers[p..]);
    InsertKeepsMatch(headers, extra, p, "word");
    InsertKeepsMatch(headers, extra, p, "description");
  }

  /** The header map of `headers`, or the missing-columns error when "word" or "description" has no header. */
  method NormalizeHeaders(headers: seq<string>) returns (r: Result<map<string, nat>, string>)
    ensures r == NormalizedHeaders(headers)
  {
    var m := HeaderIndexes(headers);
    if "word" !in m || "description" !in m {
      return Err(MISSING_COLUMNS);
    }
    r := Ok(m);
  }

  /** The index map of the normalised headers: each key at the position of the last header that spells it. */
  method HeaderIndexes(headers: seq<string>) returns (m: map<string, nat>)
    ensures m == IndexesOf(NormalizeAll(headers))
  {
    ghost var names := NormalizeAll(headers);
    m := map[];
    var i := 0;
    while i < |headers|
      invariant 0 <= i <= |headers|
      invariant m == IndexesOf(names[..i])
    {
      var header := Normalize(headers[i]);
      assert header == names[i];
      IndexesOfKeys(names[..i]);
      m := RecordHeader(m, header, i);
      assert names[..i + 1] == names[..i] + [header];
      RecordedIsIndexes(names[..i], header, m);
      i := i + 1;
    }
    assert names[..|headers|] == names;
  }

  /** The inner loop: every key that `header` spells now maps to position `i`. */
  method RecordHeader(m0: map<string, nat>, header: string, i: nat) returns (m: map<string, nat>)
    requires forall k :: k in m0 ==> k in HEADER_KEYS
    ensures forall k :: k in m ==> k in HEADER_KEYS
    ensures forall t :: 0 <= t < |HEADER_KEYS| ==>
      Lookup(m, HEADER_KEYS[t]) == if IsAlias(HEADER_KEYS[t], header) then Some(i) else Lookup(m0, HEADER_KEYS[t])
  {
    m := m0;
    var j := 0;
    while j < |HEADER_KEYS|
      invariant 0 <= j <= |HEADER_KEYS|
      invariant forall k :: k in m ==> k in HEADER_KEYS
      invariant forall t :: 0 <= t < |HEADER_KEYS| ==>
        Lookup(m, HEADER_KEYS[t])
          == if t < j && IsAlias(HEADER_KEYS[t], header) then Some(i) else Lookup(m0, HEADER_KEYS[t])
    {
      var key := HEADER_KEYS[j];
      if header in Aliases(key) {
        m := m[key := i];
      }
      j := j + 1;
    }
  }

  /** Only column keys are in an index map. */
  lemma IndexesOfKeys(names: seq<string>)
    ensures forall k :: k in IndexesOf(names) ==> k in HEADER_KEYS
  {
  }

  /** One more name moves every key it spells to its position and leaves the others alone. */
  lemma IndexesOfStep(names: seq<string>, name: string)
    ensures forall t :: 0 <= t < |HEADER_KEYS| ==>
      Lookup(IndexesOf(names + [name]), HEADER_KEYS[t])
        == if IsAlias(HEADER_KEYS[t], name) then Some(|names|) else Lookup(IndexesOf(names), HEADER_KEYS[t])
  {
    var next := names + [name];
    assert next[..|names|] == names;
    forall t | 0 <= t < |HEADER_KEYS|
      ensures Lookup(IndexesOf(next), HEADER_KEYS[t])
        == if IsAlias(HEADER_KEYS[t], name) then Some(|names|) else Lookup(IndexesOf(names), HEADER_KEYS[t])
    {
      var k := HEADER_KEYS[t];
      assert LastMatch(next, k) == if IsAlias(k, name) then Some(|names|) else LastMatch(names, k);
    }
  }

  /** A map that moves exactly the keys `name` spells to the next position is the index map of the longer list. */
  lemma RecordedIsIndexes(names: seq<string>, name: string, m: map<string, nat>)
    requires forall k :: k in m ==> k in HEADER_KEYS
    requires forall t :: 0 <= t < |HEADER_KEYS| ==>
      Lookup(m, HEADER_KEYS[t]) == if IsAlias(HEADER_KEYS[t], name) then Some(|names|) else Lookup(IndexesOf(names), HEADER_KEYS[t])
    ensures m == IndexesOf(names + [name])
  {
    IndexesOfStep(names, name);
    IndexesOfKeys(names + [name]);
    SameLookups(m, IndexesOf(names + [name]));
  }

  function Lookup(m: map<string, nat>, k: string): Option<nat>
  {
    if k in m then Some(m[k]) else None
  }

  /** Two maps over the column keys that agree on every key are equal. */
  lemma SameLookups(m: map<string, nat>, n: map<string, nat>)
    requires forall k :: k in m ==> k in HEADER_KEYS
    requires forall k :: k in n ==> k in HEADER_KEYS
    requires forall t :: 0 <= t < |HEADER_KEYS| ==> Lookup(m, HEADER_KEYS[t]) == Lookup(n, HEADER_KEYS[t])
    ensures m == n
  {
    forall k | k in HEADER_KEYS ensures Lookup(m, k) == Lookup(n, k) {
      if k == "word" { assert k == HEADER_KEYS[0]; }
      else if k == "description" { assert k == HEADER_KEYS[1]; }
      else { assert k == HEADER_KEYS[2]; }
    }
    assert forall k :: k in m <==> k in n by {
      forall k ensures k in m <==> k in n {
        if k in m || k in n {
          assert Lookup(m, k) == Lookup(n, k);
        }
      }
    }
  }

  /** The trimmed columns of the first line of `content`, split on commas. */
  function FirstLineColumns(content: string): (cols: seq<string>)
    ensures |cols| >= 1
  {
    var line := Split(content, '\n')[0];
    var raw := Split(line, ',');
    seq(|raw|, i requires 0 <= i < |raw| => Trim(raw[i]))
  }

  /** Whether an upload is a structured word list: the header check of its first line. */
  function IsStructuredFile(content: string): (r: Result<bool, string>)
    ensures r.Err? <==> NormalizedHeaders(FirstLineColumns(content)).Err?
    ensures r.Err? ==> r.error == MISSING_COLUMNS
    ensures r.Ok? ==> r.value
  {
    match NormalizedHeaders(FirstLineColumns(content))
    case Err(e) => Err(e)
    case Ok(m) => Ok(|m.Keys| > 0 && "word" in m && "description" in m)
  }
}
