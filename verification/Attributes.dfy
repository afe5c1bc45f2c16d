/**
 The text form of resource attributes: `key=value` entries separated by commas,
 with blanks around entries, keys and values ignored.
 */
module Attributes {
  import opened Wrappers

  datatype KeyValue = KeyValue(key: string, value: string)

  /** The Unicode property White_Space. */
  predicate White(c: char) {
    || '\U{0009}' <= c <= '\U{000D}' || c == ' ' || c == '\U{0085}' || c == '\U{00A0}' || c == '\U{1680}'
    || '\U{2000}' <= c <= '\U{200A}' || '\U{2028}' <= c <= '\U{2029}' || c == '\U{202F}' || c == '\U{205F}'
    || c == '\U{3000}'
  }

  function TrimStart(s: string): string {
    if s != "" && White(s[0]) then TrimStart(s[1..]) else s
  }

  function TrimEnd(s: string): string {
    if s != "" && White(s[|s| - 1]) then TrimEnd(s[..|s| - 1]) else s
  }

  function Trim(s: string): string {
    TrimEnd(TrimStart(s))
  }

  predicate Blank(s: string) {
    forall i :: 0 <= i < |s| ==> White(s[i])
  }

  /** Neither end is a blank. */
  predicate Trimmed(s: string) {
    s == "" || (!White(s[0]) && !White(s[|s| - 1]))
  }

  /** What precedes the first `sep`, and what follows it if there is one. */
  function Cut(s: string, sep: char): (cut: (string, Option<string>))
    ensures |cut.0| <= |s| && (cut.1.Some? ==> |cut.1.value| < |s|)
  {
    if s == "" then ("", None)
    else if s[0] == sep then ("", Some(s[1..]))
    else
      var (before, after) := Cut(s[1..], sep);
      ([s[0]] + before, after)
  }

  function Split(s: string, sep: char): seq<string>
    decreases |s|
  {
    var (before, after) := Cut(s, sep);
    if after.None? then [before] else [before] + Split(after.value, sep)
  }

  function Join(pieces: seq<string>, sep: char): string {
    if pieces == [] then "" else if |pieces| == 1 then pieces[0] else pieces[0] + [sep] + Join(pieces[1..], sep)
  }

  /** One entry; the error is the entry whose key is blank. */
  function ParsePair(pair: string): Result<KeyValue, string> {
    var (key, value) := Cut(pair, '=');
    if Trim(key) == "" then Err(pair)
    else Ok(KeyValue(Trim(key), Trim(if value.Some? then value.value else "")))
  }

  function ParseAll(pairs: seq<string>): Result<seq<KeyValue>, string> {
    if pairs == [] then Ok([])
    else if Trim(pairs[0]) == "" then ParseAll(pairs[1..])
    else match ParsePair(pairs[0])
      case Err(e) => Err(e)
      case Ok(kv) => Prepend([kv], ParseAll(pairs[1..]))
  }

  function Prepend(kvs: seq<KeyValue>, r: Result<seq<KeyValue>, string>): Result<seq<KeyValue>, string> {
    if r.Ok? then Ok(kvs + r.value) else r
  }

  function Parse(s: string): Result<seq<KeyValue>, string> {
    ParseAll(Split(s, ','))
  }

  function Print(kvs: seq<KeyValue>): string {
    if kvs == [] then "" else kvs[0].key + "=" + kvs[0].value + "," + Print(kvs[1..])
  }

  method TryFrom(s: string) returns (r: Result<seq<KeyValue>, string>)
    ensures r == Parse(s)
  {
    var kvs := [];
    var pairs := Split(s, ',');
    ghost var all := ParseAll(pairs);
    assert pairs[0..] == pairs && (all.Ok? ==> [] + all.value == all.value);
    for i := 0 to |pairs|
      invariant Parse(s) == Prepend(kvs, ParseAll(pairs[i..]))
    {
      var pair := pairs[i];
      assert pairs[i..][0] == pair && pairs[i..][1..] == pairs[i + 1..];
      if Trim(pair) == "" {
        continue;
      }
      var (before, after) := Cut(pair, '=');
      var key := Trim(before);
      if key == "" {
        return Err(pair);
      }
      var value := Trim(if after.Some? then after.value else "");
      PrependTwice(kvs, [KeyValue(key, value)], ParseAll(pairs[i + 1..]));
      kvs := kvs + [KeyValue(key, value)];
    }
    assert kvs + [] == kvs;
    return Ok(kvs);
  }

  lemma PrependTwice(a: seq<KeyValue>, b: seq<KeyValue>, r: Result<seq<KeyValue>, string>)
    ensures Prepend(a, Prepend(b, r)) == Prepend(a + b, r)
  {
    if r.Ok? {
      assert a + (b + r.value) == a + b + r.value;
    }
  }

  method Display(kvs: seq<KeyValue>) returns (text: string)
    ensures text == Print(kvs)
  {
    text := "";
    for i := 0 to |kvs|
      invariant Print(kvs) == text + Print(kvs[i..])
    {
      var rest := Print(kvs[i + 1..]);
      assert kvs[i..][1..] == kvs[i + 1..];
      var entry := kvs[i].key + "=" + kvs[i].value + ",";
      assert text + (entry + rest) == text + entry + rest;
      text := text + entry;
    }
  }

  // ----- Trimming -----

  lemma {:induction false} TrimStartSuffix(s: string) returns (i: nat)
    ensures i <= |s| && TrimStart(s) == s[i..] && Blank(s[..i])
    ensures i < |s| ==> !White(s[i])
  {
    if s != "" && White(s[0]) {
      var k := TrimStartSuffix(s[1..]);
      i := k + 1;
      assert s[1..][k..] == s[i..] && s[..i] == [s[0]] + s[1..][..k];
    } else {
      i := 0;
    }
  }

  lemma {:induction false} TrimEndPrefix(s: string) returns (i: nat)
    ensures i <= |s| && TrimEnd(s) == s[..i] && Blank(s[i..])
    ensures i > 0 ==> !White(s[i - 1])
  {
    if s != "" && White(s[|s| - 1]) {
      var front := s[..|s| - 1];
      i := TrimEndPrefix(front);
      assert front[..i] == s[..i] && s[i..] == front[i..] + [s[|s| - 1]];
    } else {
      i := |s|;
    }
  }

  /** `Trim` removes exactly the blanks at both ends: the result is trimmed, and what it lacks is blank. */
  lemma TrimExactly(s: string) returns (i: nat, j: nat)
    ensures i <= j <= |s| && Trim(s) == s[i..j] && Blank(s[..i]) && Blank(s[j..])
    ensures Trimmed(Trim(s))
    ensures i < j ==> !White(s[i])
  {
    i := TrimStartSuffix(s);
    var k := TrimEndPrefix(s[i..]);
    j := i + k;
    assert s[i..][..k] == s[i..j] && s[i..][k..] == s[j..];
  }

  lemma TrimOf(s: string)
    ensures Trimmed(s) ==> Trim(s) == s
    ensures Trim(s) == "" <==> Blank(s)
    ensures forall c :: c in Trim(s) ==> c in s
  {
    var i, j := TrimExactly(s);
    if Trim(s) == "" {
      forall k | 0 <= k < |s| ensures White(s[k]) {
        assert k < i ==> s[..i][k] == s[k];
        assert k >= j ==> s[j..][k - j] == s[k];
      }
    }
    if Trimmed(s) && s != "" {
      assert i == 0 && j == |s|;
    }
  }

  // ----- Splitting -----

  /** `Cut` splits at the first separator. */
  lemma {:induction false} CutIsFirst(s: string, sep: char)
    ensures var (before, after) := Cut(s, sep);
      && sep !in before && (after.Some? <==> sep in s)
      && s == before + if after.Some? then [sep] + after.value else ""
  {
    if s != "" && s[0] != sep {
      CutIsFirst(s[1..], sep);
      var (before, after) := Cut(s[1..], sep);
      assert s == [s[0]] + s[1..];
      assert s == [s[0]] + before + if after.Some? then [sep] + after.value else "";
    }
  }

  lemma {:induction false} CutAppend(before: string, sep: char, after: string)
    requires sep !in before
    ensures Cut(before + [sep] + after, sep) == (before, Some(after))
  {
    var s := before + [sep] + after;
    if before == "" {
      assert s[1..] == after;
    } else {
      CutAppend(before[1..], sep, after);
      assert [before[0]] + before[1..] == before;
      assert s[1..] == before[1..] + [sep] + after;
    }
  }

  /** The pieces are the ones that rejoin to the text and hold no separator. */
  lemma {:induction false} SplitJoins(s: string, sep: char)
    ensures Split(s, sep) != [] && Join(Split(s, sep), sep) == s
    ensures forall p :: p in Split(s, sep) ==> sep !in p
    decreases |s|
  {
    CutIsFirst(s, sep);
    var (before, after) := Cut(s, sep);
    if after.Some? {
      SplitJoins(after.value, sep);
      assert Split(s, sep)[1..] == Split(after.value, sep);
      assert before + [sep] + after.value == before + ([sep] + after.value);
    }
  }

  lemma {:induction false} SplitAppend(a: string, sep: char, b: string)
    ensures Split(a + [sep] + b, sep) == Split(a, sep) + Split(b, sep)
    decreases |a|
  {
    CutIsFirst(a, sep);
    var (before, after) := Cut(a, sep);
    if after.None? {
      assert before == a;
      CutAppend(a, sep, b);
    } else {
      SplitAppend(after.value, sep, b);
      CutAppend(before, sep, after.value + [sep] + b);
      assert a + [sep] + b == before + [sep] + (after.value + [sep] + b);
    }
  }

  // ----- Parsing and printing -----

  lemma {:induction false} ParseAllAppend(a: seq<string>, b: seq<string>)
    ensures ParseAll(a + b) == if ParseAll(a).Ok? then Prepend(ParseAll(a).value, ParseAll(b)) else ParseAll(a)
  {
    if a == [] {
      assert a + b == b;
      assert ParseAll(b).Ok? ==> [] + ParseAll(b).value == ParseAll(b).value;
    } else {
      ParseAllAppend(a[1..], b);
      assert (a + b)[1..] == a[1..] + b;
      if Trim(a[0]) != "" && ParsePair(a[0]).Ok? && ParseAll(a[1..]).Ok? {
        PrependTwice([ParsePair(a[0]).value], ParseAll(a[1..]).value, ParseAll(b));
      }
    }
  }

  /** Two texts joined by a comma parse as the one followed by the other. */
  lemma ParseIsCompositional(a: string, b: string)
    ensures Parse(a + "," + b) == if Parse(a).Ok? then Prepend(Parse(a).value, Parse(b)) else Parse(a)
  {
    SplitAppend(a, ',', b);
    ParseAllAppend(Split(a, ','), Split(b, ','));
  }

  /** What printing can represent. */
  predicate Normal(kv: KeyValue) {
    && kv.key != "" && Trimmed(kv.key) && ',' !in kv.key && '=' !in kv.key
    && Trimmed(kv.value) && ',' !in kv.value
  }

  lemma {:induction false} ParsedIsNormal(pairs: seq<string>)
    requires ParseAll(pairs).Ok? && forall p :: p in pairs ==> ',' !in p
    ensures forall kv :: kv in ParseAll(pairs).value ==> Normal(kv)
  {
    if pairs != [] {
      ParsedIsNormal(pairs[1..]);
      if Trim(pairs[0]) != "" {
        PairIsNormal(pairs[0]);
      }
    }
  }

  lemma PairIsNormal(pair: string)
    requires ParsePair(pair).Ok? && ',' !in pair
    ensures Normal(ParsePair(pair).value)
  {
    CutIsFirst(pair, '=');
    var (key, after) := Cut(pair, '=');
    var value := if after.Some? then after.value else "";
    TrimOf(key);
    TrimOf(value);
    var _, _ := TrimExactly(key);
    var _, _ := TrimExactly(value);
    assert forall c :: c in key || c in value ==> c in pair;
  }

  lemma SplitWhole(s: string, sep: char)
    requires sep !in s
    ensures Split(s, sep) == [s]
  {
    CutIsFirst(s, sep);
    assert Cut(s, sep).0 + "" == Cut(s, sep).0;
  }

  lemma PairParses(kv: KeyValue)
    requires Normal(kv)
    ensures ParsePair(kv.key + ['='] + kv.value) == Ok(kv)
  {
    CutAppend(kv.key, '=', kv.value);
    TrimOf(kv.key);
    TrimOf(kv.value);
  }

  lemma EntryParses(kv: KeyValue)
    requires Normal(kv)
    ensures Parse(kv.key + "=" + kv.value) == Ok([kv])
  {
    var pair := kv.key + ['='] + kv.value;
    assert "=" == ['='] && ',' !in pair;
    SplitWhole(pair, ',');
    PairParses(kv);
    TrimOf(pair);
    assert pair[0] == kv.key[0] && !Blank(pair);
    var pairs, none := [pair], [];
    assert pairs[1..] == none;
    assert ParseAll(pairs) == Prepend([kv], ParseAll(none));
    assert [kv] + [] == [kv];
  }

  /** Printing writes the entries one after the other, each with its comma. */
  lemma {:induction false} PrintsEveryEntry(a: seq<KeyValue>, kv: KeyValue)
    ensures Print(a + [kv]) == Print(a) + (kv.key + "=" + kv.value + ",")
    ensures Print([]) == ""
  {
    var entry := kv.key + "=" + kv.value + ",";
    if a == [] {
      assert a + [kv] == [kv] && [kv][1..] == a;
      assert entry + "" == entry && "" + entry == entry;
    } else {
      PrintsEveryEntry(a[1..], kv);
      assert (a + [kv])[1..] == a[1..] + [kv];
      var first := a[0].key + "=" + a[0].value + ",";
      assert first + (Print(a[1..]) + entry) == first + Print(a[1..]) + entry;
    }
  }

  /** Parsing undoes printing exactly for the attributes that printing can represent. */
  lemma {:induction false} ParsePrintExactly(kvs: seq<KeyValue>)
    ensures Parse(Print(kvs)) == Ok(kvs) <==> forall kv :: kv in kvs ==> Normal(kv)
  {
    SplitJoins(Print(kvs), ',');
    if Parse(Print(kvs)) == Ok(kvs) {
      ParsedIsNormal(Split(Print(kvs), ','));
    }
    if forall kv :: kv in kvs ==> Normal(kv) {
      NormalRoundTrips(kvs);
    }
  }

  lemma {:induction false} NormalRoundTrips(kvs: seq<KeyValue>)
    requires forall kv :: kv in kvs ==> Normal(kv)
    ensures Parse(Print(kvs)) == Ok(kvs)
  {
    if kvs == [] {
      assert Split("", ',') == [""];
    } else {
      NormalRoundTrips(kvs[1..]);
      EntryParses(kvs[0]);
      ParseIsCompositional(kvs[0].key + "=" + kvs[0].value, Print(kvs[1..]));
      assert [kvs[0]] + kvs[1..] == kvs;
    }
  }

  /** Printing what was parsed and parsing it again changes nothing. */
  lemma PrintingNormalises(s: string)
    requires Parse(s).Ok?
    ensures Parse(Print(Parse(s).value)) == Parse(s)
  {
    SplitJoins(s, ',');
    ParsedIsNormal(Split(s, ','));
    NormalRoundTrips(Parse(s).value);
  }

  /** An entry that starts, after blanks, with `=`. */
  predicate Keyless(entry: string) {
    Trim(entry) != "" && Trim(entry)[0] == '='
  }

  /** A text is refused exactly if one of its entries starts, after blanks, with `=`; the first such is reported. */
  lemma ParseFailsExactly(s: string)
    ensures var entries := Split(s, ',');
      && (Parse(s).Err? <==> exists i :: 0 <= i < |entries| && Keyless(entries[i]))
      && (Parse(s).Err? ==>
            exists i :: 0 <= i < |entries| && Parse(s).error == entries[i] && Keyless(entries[i])
                        && forall j :: 0 <= j < i ==> !Keyless(entries[j]))
  {
    var entries := Split(s, ',');
    AllFailsExactly(entries);
    if i :| 0 <= i < |entries| && Keyless(entries[i]) {
      assert ParseAll(entries).Err?;
    }
  }

  lemma {:induction false} AllFailsExactly(pairs: seq<string>)
    ensures ParseAll(pairs).Err? <==> exists i :: 0 <= i < |pairs| && Keyless(pairs[i])
    ensures ParseAll(pairs).Err? ==>
      exists i :: 0 <= i < |pairs| && ParseAll(pairs).error == pairs[i] && Keyless(pairs[i])
                  && forall j :: 0 <= j < i ==> !Keyless(pairs[j])
  {
    if pairs != [] {
      var rest := pairs[1..];
      AllFailsExactly(rest);
      if Trim(pairs[0]) != "" {
        PairFailsExactly(pairs[0]);
      }
      if Keyless(pairs[0]) {
        assert ParseAll(pairs) == Err(pairs[0]);
      } else {
        assert ParseAll(pairs).Err? <==> ParseAll(rest).Err?;
        if ParseAll(rest).Err? {
          var i :| 0 <= i < |rest| && ParseAll(rest).error == rest[i] && Keyless(rest[i])
                  && forall j :: 0 <= j < i ==> !Keyless(rest[j]);
          assert pairs[i + 1] == rest[i] && ParseAll(pairs).error == pairs[i + 1];
          assert forall j :: 1 <= j < i + 1 ==> pairs[j] == rest[j - 1];
        } else {
          assert forall j :: 1 <= j < |pairs| ==> pairs[j] == rest[j - 1];
        }
      }
    }
  }

  lemma PairFailsExactly(pair: string)
    requires Trim(pair) != ""
    ensures ParsePair(pair).Err? <==> Trim(pair)[0] == '='
  {
    var i, j := TrimExactly(pair);
    CutIsFirst(pair, '=');
    var key := Cut(pair, '=').0;
    TrimOf(key);
    assert pair[i] == Trim(pair)[0] && !White(pair[i]);
    assert forall k :: 0 <= k < |key| ==> key[k] == pair[k];
    if Blank(key) {
      assert i >= |key|;
      assert i > |key| ==> White(pair[..i][|key|]);
      assert i == |key|;
    }
    if pair[i] == '=' {
      assert |key| <= i;
      assert forall k :: 0 <= k < |key| ==> key[k] == pair[..i][k];
    }
  }

  /** Blanks around an entry, its key and its value do not count, and a missing value is empty. */
  lemma BlanksAreIgnored(before: string, key: string, after: string, value: Option<(string, string, string)>)
    requires Blank(before) && Blank(after) && key != "" && Trimmed(key) && '=' !in key && ',' !in key
    requires value.Some? ==>
               Blank(value.value.0) && Trimmed(value.value.1) && ',' !in value.value.1 && Blank(value.value.2)
    ensures var entry := before + key + after
                         + if value.Some? then ['='] + (value.value.0 + value.value.1 + value.value.2) else "";
            Parse(entry) == Ok([KeyValue(key, if value.Some? then value.value.1 else "")])
  {
    var left := before + key + after;
    var right := if value.Some? then value.value.0 + value.value.1 + value.value.2 else "";
    var entry := left + if value.Some? then ['='] + right else "";
    BlankLacks(before, '=');
    BlankLacks(after, '=');
    BlankLacks(before, ',');
    BlankLacks(after, ',');
    TrimPadded(before, key, after);
    if value.Some? {
      BlankLacks(value.value.0, ',');
      BlankLacks(value.value.2, ',');
      TrimPadded(value.value.0, value.value.1, value.value.2);
      CutAppend(left, '=', right);
      assert entry == left + ['='] + right;
    } else {
      assert entry == left;
      CutWhole(left, '=');
      TrimOf("");
    }
    assert ParsePair(entry) == Ok(KeyValue(key, if value.Some? then value.value.1 else ""));
    NotBlank(entry, |before|);
    assert ',' !in entry;
    SplitWhole(entry, ',');
    OneEntry(entry);
  }

  lemma BlankLacks(s: string, c: char)
    requires Blank(s) && !White(c)
    ensures c !in s
  {
  }

  lemma CutWhole(s: string, sep: char)
    requires sep !in s
    ensures Cut(s, sep) == (s, None)
  {
    CutIsFirst(s, sep);
    assert Cut(s, sep).0 + "" == Cut(s, sep).0;
  }

  lemma NotBlank(s: string, i: nat)
    requires i < |s| && !White(s[i])
    ensures Trim(s) != ""
  {
    TrimOf(s);
  }

  lemma OneEntry(entry: string)
    requires Split(entry, ',') == [entry] && Trim(entry) != "" && ParsePair(entry).Ok?
    ensures Parse(entry) == Ok([ParsePair(entry).value])
  {
    var pairs, none := [entry], [];
    assert pairs[1..] == none;
    var kv := ParsePair(entry).value;
    assert ParseAll(pairs) == Prepend([kv], ParseAll(none));
    assert [kv] + [] == [kv];
  }

  /** Trimming undoes padding. */
  lemma TrimPadded(before: string, s: string, after: string)
    requires Blank(before) && Trimmed(s) && Blank(after)
    ensures Trim(before + s + after) == s
  {
    var padded := before + s + after;
    TrimOf(padded);
    if s == "" {
      assert Blank(padded);
    } else {
      var i, j := TrimExactly(padded);
      assert padded[|before|] == s[0] && padded[|before| + |s| - 1] == s[|s| - 1];
      assert i == |before| && j == |before| + |s|;
      assert padded[i..j] == s;
    }
  }

  /** Spaces and line ends are blanks; separators and what stands in ordinary keys are not. */
  lemma Blanks(c: char)
    ensures c in " \t\n\r" ==> White(c)
    ensures '!' <= c <= '~' ==> !White(c)
  {
  }
}
