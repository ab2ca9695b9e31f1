/** Bech32 strings (BIP-173): the specification that the repository's two encoders are proved against,
    and a receiver that the repository does not have. */
module Bech32 {
  import opened Wrappers
  import opened Bytes
  import opened Regroup
  import opened Polymod

  const CHARSET: string := "qpzry9x8gf2tvdw0s3jn54khce6mua7l"

  predicate Ascii(hrp: string) {
    forall i :: 0 <= i < |hrp| ==> hrp[i] as int < 128
  }

  predicate Below32(symbols: seq<int>) {
    forall i :: 0 <= i < |symbols| ==> 0 <= symbols[i] < 32
  }

  /* ---------- Specification ---------- */

  function AsValues(symbols: seq<int>): (values: seq<bv8>)
    requires Below32(symbols)
    ensures |values| == |symbols| && Symbols(values)
    ensures forall i :: 0 <= i < |symbols| ==> values[i] as int == symbols[i]
  {
    seq(|symbols|, i requires 0 <= i < |symbols| => symbols[i] as bv8)
  }

  function High(c: char): bv8
    requires c as int < 128
  {
    (c as int / 32) as bv8
  }

  function Low(c: char): bv8 { (c as int % 32) as bv8 }

  /** The prefix as checksum input: high parts, a zero, low parts. */
  function ExpandHRP(hrp: string): (values: seq<bv8>)
    requires Ascii(hrp)
    ensures |values| == 2 * |hrp| + 1
  {
    seq(|hrp|, i requires 0 <= i < |hrp| => High(hrp[i])) + [0] + seq(|hrp|, i requires 0 <= i < |hrp| => Low(hrp[i]))
  }

  /** The characters of symbols. */
  function Chars(values: seq<bv8>): (s: string)
    requires Symbols(values)
    ensures |s| == |values|
    ensures forall i :: 0 <= i < |s| ==> s[i] == CHARSET[values[i] as int]
  {
    seq(|values|, i requires 0 <= i < |values| => CHARSET[values[i] as int])
  }

  /** The symbols of the data part. */
  function DataValues(data: seq<byte>): (values: seq<bv8>)
    ensures Symbols(values)
  {
    ToSymbolsBits(data, []);
    AsValues(ToSymbols(data))
  }

  /** The string for a prefix whose checksum input is `expanded`. */
  function EncodeWith(hrp: string, expanded: seq<bv8>, data: seq<byte>): string {
    var values := DataValues(data);
    hrp + "1" + Chars(values + Checksum(expanded + values))
  }

  function Encode(hrp: string, data: seq<byte>): string
    requires Ascii(hrp)
  {
    EncodeWith(hrp, ExpandHRP(hrp), data)
  }

  /* ---------- A receiver ---------- */

  function IndexIn(s: string, c: char): nat {
    if s == [] || s[0] == c then 0 else 1 + IndexIn(s[1..], c)
  }

  function ReadSymbols(s: string): Option<seq<int>> {
    if forall i | 0 <= i < |s| :: IndexIn(CHARSET, s[i]) < 32 then
      Some(seq(|s|, i requires 0 <= i < |s| => IndexIn(CHARSET, s[i])))
    else None
  }

  function LastSeparator(s: string): (r: Option<nat>)
    ensures r.Some? ==> r.value < |s|
  {
    if s == [] then None
    else if s[|s| - 1] == '1' then Some(|s| - 1)
    else LastSeparator(s[..|s| - 1])
  }

  function Receive(s: string): Option<(string, seq<nat>)> {
    var separator := LastSeparator(s);
    if separator.None? then None
    else
      var hrp, symbols := s[..separator.value], ReadSymbols(s[separator.value + 1..]);
      if symbols.None? || |symbols.value| < 6 || !Ascii(hrp) || !Below32(symbols.value) then None
      else if !Verifies(ExpandHRP(hrp) + AsValues(symbols.value)) then None
      else
        var data := FromSymbols(symbols.value[..|symbols.value| - 6]);
        if data.None? then None else Some((hrp, data.value))
  }

  /* ---------- The receiver accepts what was encoded ---------- */

  lemma {:induction false} IndexInDistinct(s: string, i: nat)
    requires i < |s| && forall j, k :: 0 <= j < k < |s| ==> s[j] != s[k]
    ensures IndexIn(s, s[i]) == i
  {
    if i != 0 {
      assert s[0] != s[i];
      IndexInDistinct(s[1..], i - 1);
    }
  }

  lemma CharsetIndex(i: nat)
    requires i < 32
    ensures IndexIn(CHARSET, CHARSET[i]) == i && CHARSET[i] != '1'
  {
    hide IndexIn;
    CharsetDistinct();
    IndexInDistinct(CHARSET, i);
  }

  lemma CharsetDistinct()
    ensures forall j, k :: 0 <= j < k < |CHARSET| ==> CHARSET[j] != CHARSET[k]
    ensures forall j :: 0 <= j < |CHARSET| ==> CHARSET[j] != '1'
  {
  }

  lemma ReadChars(values: seq<bv8>)
    requires Symbols(values)
    ensures var read := ReadSymbols(Chars(values));
            && read.Some? && |read.value| == |values| && Below32(read.value)
            && AsValues(read.value) == values
    ensures '1' !in Chars(values)
  {
    hide IndexIn;
    var s := Chars(values);
    forall i | 0 <= i < |s|
      ensures IndexIn(CHARSET, s[i]) == values[i] as int && s[i] != '1'
    {
      CharsetIndex(values[i] as int);
    }
    var read := ReadSymbols(s).value;
    forall i | 0 <= i < |values|
      ensures AsValues(read)[i] == values[i]
    {
      SameInt(AsValues(read)[i], values[i]);
    }
  }

  lemma SameInt(a: bv8, b: bv8)
    requires a as int == b as int
    ensures a == b
  {
  }

  lemma {:induction false} LastSeparatorAt(before: string, after: string)
    requires '1' !in after
    ensures LastSeparator(before + "1" + after) == Some(|before|)
  {
    var s := before + "1" + after;
    if after != [] {
      assert s[..|s| - 1] == before + "1" + after[..|after| - 1];
      LastSeparatorAt(before, after[..|after| - 1]);
    }
  }

  /** Receive, on a string whose separator is known. */
  lemma ReceiveSplit(hrp: string, values: seq<bv8>)
    requires Ascii(hrp) && Symbols(values) && |values| >= 6
    ensures var s := hrp + "1" + Chars(values);
            && (Receive(s).Some? ==> Verifies(ExpandHRP(hrp) + values))
            && (Verifies(ExpandHRP(hrp) + values) ==>
                exists symbols: seq<int> :: Below32(symbols) && AsValues(symbols) == values[..|values| - 6]
                  && Receive(s) == (var data := FromSymbols(symbols);
                                    if data.None? then None else Some((hrp, data.value))))
  {
    hide IndexIn, Verifies, FromSymbols;
    var s, tail := hrp + "1" + Chars(values), Chars(values);
    ReadChars(values);
    LastSeparatorAt(hrp, tail);
    assert s[..|hrp|] == hrp && s[|hrp| + 1..] == tail;
    var read := ReadSymbols(tail).value;
    var symbols := read[..|read| - 6];
    assert AsValues(symbols) == AsValues(read)[..|read| - 6];
  }

  lemma AsValuesInjective(a: seq<int>, b: seq<int>)
    requires Below32(a) && Below32(b) && AsValues(a) == AsValues(b)
    ensures a == b
  {
    forall i | 0 <= i < |a| ensures a[i] == b[i] {
      assert AsValues(a)[i] as int == a[i] && AsValues(b)[i] as int == b[i];
    }
  }

  /** Every encoded string is accepted and yields the prefix and the data again. */
  lemma RoundTrip(hrp: string, data: seq<byte>)
    requires Ascii(hrp)
    ensures Receive(Encode(hrp, data)) == Some((hrp, data))
  {
    hide Receive, Verifies, FromSymbols, Checksum, ToSymbols, ExpandHRP, Chars;
    var x, values := ExpandHRP(hrp), DataValues(data);
    var checksum := Checksum(x + values);
    ChecksumVerifies(x + values, checksum);
    assert x + values + checksum == x + (values + checksum);
    ReceiveSplit(hrp, values + checksum);
    assert (values + checksum)[..|values|] == values;
    ToSymbolsBits(data, []);
    FromToSymbols(data);
    forall symbols: seq<int> | Below32(symbols) && AsValues(symbols) == values
      ensures symbols == ToSymbols(data)
    {
      AsValuesInjective(symbols, ToSymbols(data));
    }
  }

  /** corrupted differs from the string of a word only inside lo..hi, and not by a separator. */
  predicate Corruption(hrp: string, word: seq<bv8>, corrupted: string, lo: nat, hi: nat)
    requires Symbols(word)
  {
    var s := hrp + "1" + Chars(word);
    && |corrupted| == |s| && |hrp| < lo <= hi <= |s|
    && corrupted[..lo] == s[..lo] && corrupted[hi..] == s[hi..] && '1' !in corrupted[lo..hi]
  }

  lemma CorruptedTail(hrp: string, word: seq<bv8>, corrupted: string, lo: nat, hi: nat)
    requires Symbols(word) && Corruption(hrp, word, corrupted, lo, hi)
    ensures corrupted[..|hrp|] == hrp && LastSeparator(corrupted) == Some(|hrp|)
    ensures corrupted == hrp + "1" + corrupted[|hrp| + 1..]
  {
    hide IndexIn;
    var n := |hrp| + 1;
    var tail := corrupted[n..];
    forall i | 0 <= i < |tail| ensures tail[i] != '1' {
      TailChar(hrp, word, corrupted, lo, hi, i);
    }
    assert corrupted[..n] == corrupted[..lo][..n] == hrp + "1";
    assert corrupted == hrp + "1" + tail;
    LastSeparatorAt(hrp, tail);
  }

  lemma OutsideUnchanged(hrp: string, word: seq<bv8>, corrupted: string, lo: nat, hi: nat, symbols: seq<int>)
    requires Symbols(word) && Corruption(hrp, word, corrupted, lo, hi)
    requires ReadSymbols(corrupted[|hrp| + 1..]) == Some(symbols) && Below32(symbols)
    ensures |symbols| == |word|
    ensures forall i :: 0 <= i < |word| && !(lo <= |hrp| + 1 + i < hi) ==> AsValues(symbols)[i] == word[i]
  {
    hide IndexIn;
    forall i | 0 <= i < |word| && !(lo <= |hrp| + 1 + i < hi)
      ensures AsValues(symbols)[i] == word[i]
    {
      TailChar(hrp, word, corrupted, lo, hi, i);
      CharsetIndex(word[i] as int);
      SameInt(AsValues(symbols)[i], word[i]);
    }
  }

  /** Corrupting up to six consecutive characters after the separator, without writing another
      separator, is always noticed. */
  lemma CorruptionRejected(hrp: string, data: seq<byte>, corrupted: string, lo: nat, hi: nat)
    requires Ascii(hrp) && hi - lo <= 6 && corrupted != Encode(hrp, data)
    requires Corruption(hrp, DataValues(data) + Checksum(ExpandHRP(hrp) + DataValues(data)), corrupted, lo, hi)
    ensures Receive(corrupted) == None
  {
    hide Verifies, FromSymbols, Checksum, IndexIn, LastSeparator, ReadSymbols;
    var values := DataValues(data);
    var word := values + Checksum(ExpandHRP(hrp) + values);
    CorruptedTail(hrp, word, corrupted, lo, hi);
    if Receive(corrupted).Some? {
      var n := |hrp| + 1;
      var tail := corrupted[n..];
      var symbols := ReadSymbols(tail).value;
      OutsideUnchanged(hrp, word, corrupted, lo, hi, symbols);
      BurstNoticed(hrp, values, AsValues(symbols), lo - n, hi - n);
      ReadEqual(tail, word);
    }
  }

  lemma TailChar(hrp: string, word: seq<bv8>, corrupted: string, lo: nat, hi: nat, i: nat)
    requires Symbols(word) && Corruption(hrp, word, corrupted, lo, hi) && i < |word|
    ensures corrupted[|hrp| + 1 + i] != '1'
    ensures !(lo <= |hrp| + 1 + i < hi) ==> corrupted[|hrp| + 1 + i] == CHARSET[word[i] as int]
  {
    hide IndexIn;
    var s, k := hrp + "1" + Chars(word), |hrp| + 1 + i;
    assert s[k] == Chars(word)[i];
    CharsetIndex(word[i] as int);
    if k < lo {
      assert corrupted[k] == corrupted[..lo][k] == s[..lo][k];
    } else if k >= hi {
      assert corrupted[k] == corrupted[hi..][k - hi] == s[hi..][k - hi];
    } else {
      assert corrupted[k] == corrupted[lo..hi][k - lo];
    }
  }

  lemma SliceSymbols(values: seq<bv8>, lo: nat, hi: nat)
    requires lo <= hi <= |values| && Symbols(values)
    ensures Symbols(values[lo..hi])
  {
    forall i | 0 <= i < hi - lo ensures values[lo..hi][i] < 32 {
      assert values[lo..hi][i] == values[lo + i];
    }
  }

  /** Two equally long sequences that agree outside lo..hi are cut alike, and differ in the middle if at
      all. */
  lemma AgreeOutside<T>(read: seq<T>, word: seq<T>, lo: nat, hi: nat)
    requires lo <= hi <= |read| == |word|
    requires forall i :: 0 <= i < |read| && !(lo <= i < hi) ==> read[i] == word[i]
    ensures word == word[..lo] + word[lo..hi] + word[hi..]
    ensures read == word[..lo] + read[lo..hi] + word[hi..]
    ensures read[lo..hi] == word[lo..hi] ==> read == word
  {
    assert read[..lo] == word[..lo] && read[hi..] == word[hi..];
    assert read == read[..lo] + read[lo..hi] + read[hi..];
  }

  lemma Reassociate<T>(x: seq<T>, a: seq<T>, b: seq<T>, c: seq<T>)
    ensures x + (a + b + c) == x + a + b + c
  {
  }

  /** A different word that agrees with an emitted one outside six symbols does not verify. */
  lemma BurstNoticed(hrp: string, values: seq<bv8>, read: seq<bv8>, lo: nat, hi: nat)
    requires Ascii(hrp) && Symbols(values) && Symbols(read)
    requires lo <= hi <= |read| == |values| + 6 && hi - lo <= 6
    requires var word := values + Checksum(ExpandHRP(hrp) + values);
             forall i :: 0 <= i < |read| && !(lo <= i < hi) ==> read[i] == word[i]
    ensures read == values + Checksum(ExpandHRP(hrp) + values) || !Verifies(ExpandHRP(hrp) + read)
  {
    hide Checksum, Run, ExpandHRP;
    var x := ExpandHRP(hrp);
    EmittedVerifies(x, values);
    WordNoticed(x, values + Checksum(x + values), read, lo, hi);
  }

  lemma EmittedVerifies(x: seq<bv8>, values: seq<bv8>)
    requires Symbols(values)
    ensures Symbols(values + Checksum(x + values)) && Verifies(x + (values + Checksum(x + values)))
  {
    hide Checksum, Run;
    ChecksumVerifies(x + values, Checksum(x + values));
    assert x + values + Checksum(x + values) == x + (values + Checksum(x + values));
  }

  lemma WordNoticed(x: seq<bv8>, word: seq<bv8>, read: seq<bv8>, lo: nat, hi: nat)
    requires Symbols(word) && Symbols(read) && lo <= hi <= |read| == |word| && hi - lo <= 6
    requires forall i :: 0 <= i < |read| && !(lo <= i < hi) ==> read[i] == word[i]
    requires Verifies(x + word)
    ensures read == word || !Verifies(x + read)
  {
    hide Run, Symbols;
    AgreeOutside(read, word, lo, hi);
    if read != word {
      var before, after := word[..lo], word[hi..];
      SliceSymbols(word, lo, hi);
      SliceSymbols(read, lo, hi);
      BurstChangesRun(1, x + before, word[lo..hi], read[lo..hi], after);
      Reassociate(x, before, word[lo..hi], after);
      Reassociate(x, before, read[lo..hi], after);
    }
  }

  /** Characters that read as the symbols of a word are the characters of that word. */
  lemma ReadEqual(tail: string, word: seq<bv8>)
    requires Symbols(word) && ReadSymbols(tail).Some? && Below32(ReadSymbols(tail).value)
    requires AsValues(ReadSymbols(tail).value) == word
    ensures tail == Chars(word)
  {
    hide IndexIn;
    forall i | 0 <= i < |tail| ensures tail[i] == CHARSET[word[i] as int] {
      var k := ReadSymbols(tail).value[i];
      assert word[i] as int == k;
      IndexInHit(CHARSET, tail[i]);
    }
  }

  lemma {:induction false} IndexInHit(s: string, c: char)
    requires IndexIn(s, c) < |s|
    ensures s[IndexIn(s, c)] == c
  {
    if s[0] != c {
      IndexInHit(s[1..], c);
    }
  }
}
