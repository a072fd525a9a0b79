/** The canonical ERC-20 holdings string (internal/application/extract.go).

The string is compared byte for byte by the engine, so what matters is that two
token lists print alike exactly when they hold the same balances. The parser
below is the printer's partner: it exists only in this proof. */
module Holdings {
  import opened Prelude
  import opened Sorting
  import opened Digits
  import opened Address

  datatype TokenHolding = TokenHolding(contract: Address, name: string, symbol: string, decimals: Byte, balance: Option<int>)

  type Balances = map<Address, Option<int>>

  function ContractKey(h: TokenHolding): seq<int> { h.contract }

  ghost predicate DistinctContracts(tokens: seq<TokenHolding>) {
    forall i, j :: 0 <= i < j < |tokens| ==> tokens[i].contract != tokens[j].contract
  }

  // ---- the printer --------------------------------------------------------

  function BalanceText(b: Option<int>): string {
    match b
    case None => ""
    case Some(n) => PrintInt(n)
  }

  function Entry(hash: Hasher, h: TokenHolding): string {
    Hex(hash, h.contract) + "=" + BalanceText(h.balance)
  }

  function JoinEntries(hash: Hasher, tokens: seq<TokenHolding>): string {
    if |tokens| == 0 then ""
    else if |tokens| == 1 then Entry(hash, tokens[0])
    else JoinEntries(hash, tokens[..|tokens| - 1]) + ";" + Entry(hash, tokens[|tokens| - 1])
  }

  /** The canonical form: entries in byte order of their contracts. */
  function Canonical(hash: Hasher, tokens: seq<TokenHolding>): string {
    JoinEntries(hash, SortBy(ContractKey, tokens))
  }

  /** extractERC20HoldingsField. */
  method ExtractHoldings(hash: Hasher, tokens: seq<TokenHolding>) returns (raw: string)
    ensures raw == Canonical(hash, tokens)
  {
    hide Hex, PrintInt, SortBy;
    var holdings := SortBy(ContractKey, tokens);
    raw := "";
    for i := 0 to |holdings|
      invariant raw == JoinEntries(hash, holdings[..i])
    {
      if i > 0 { raw := raw + ";"; }
      var contract := Eip55Hex(hash, holdings[i].contract);
      raw := raw + contract + "=";
      if holdings[i].balance.Some? { raw := raw + PrintInt(holdings[i].balance.value); }
      assert holdings[..i + 1][..i] == holdings[..i];
    }
    assert holdings[..|holdings|] == holdings;
  }

  // ---- the parser ---------------------------------------------------------

  /** strings.Split(s, ";"). */
  function Split(s: string): (pieces: seq<string>)
    ensures |pieces| >= 1
  {
    if s == "" then [""]
    else
      var pieces := Split(s[..|s| - 1]);
      var n := |pieces| - 1;
      if s[|s| - 1] == ';' then pieces + [""] else pieces[n := pieces[n] + [s[|s| - 1]]]
  }

  ghost function ParseBalance(s: string): Option<Option<int>> {
    if s == "" then Some(None)
    else match ParseInt(s, 10)
         case None => None
         case Some(n) => Some(Some(n))
  }

  /** Reads the pieces from the left into a map. */
  ghost function ParseEntries(hash: Hasher, pieces: seq<string>): Option<Balances> {
    if pieces == [] then Some(map[])
    else
      var last := pieces[|pieces| - 1];
      if |last| < 43 || last[42] != '=' then None
      else
        match (ParseEntries(hash, pieces[..|pieces| - 1]), Parse(hash, last[..42]), ParseBalance(last[43..]))
        case (Some(m), Ok(a), Some(b)) => Some(m[a := b])
        case _ => None
  }

  ghost function ParseHoldings(hash: Hasher, s: string): Option<Balances> {
    if s == "" then Some(map[]) else ParseEntries(hash, Split(s))
  }

  /** The contract-to-balance map of a token list. */
  ghost function BalanceMap(tokens: seq<TokenHolding>): Balances {
    if tokens == [] then map[]
    else
      var last := tokens[|tokens| - 1];
      BalanceMap(tokens[..|tokens| - 1])[last.contract := last.balance]
  }

  // ---- printing then parsing ----------------------------------------------

  lemma {:induction false} SplitAppend(s: string, e: string)
    requires forall c :: c in e ==> c != ';'
    ensures Split(s + e) == var p := Split(s); p[|p| - 1 := p[|p| - 1] + e]
  {
    if e == "" {
      assert s + e == s;
      var p := Split(s);
      assert p[|p| - 1] + e == p[|p| - 1];
    } else {
      var e', c := e[..|e| - 1], e[|e| - 1];
      forall x | x in e' ensures x != ';' { assert x in e; }
      SplitAppend(s, e');
      assert (s + e)[..|s + e| - 1] == s + e' && (s + e)[|s + e| - 1] == c;
      assert c in e && e' + [c] == e;
      var p := Split(s);
      assert p[|p| - 1] + e' + [c] == p[|p| - 1] + e;
    }
  }

  lemma SplitNext(s: string, e: string)
    requires forall c :: c in e ==> c != ';'
    ensures Split(s + ";" + e) == Split(s) + [e]
  {
    var t := s + ";";
    assert t[..|t| - 1] == s && t[|t| - 1] == ';';
    SplitAppend(t, e);
    assert Split(t) == Split(s) + [""];
    assert "" + e == e;
  }

  function EntryTexts(hash: Hasher, tokens: seq<TokenHolding>): seq<string> {
    seq(|tokens|, i requires 0 <= i < |tokens| => Entry(hash, tokens[i]))
  }

  lemma EntryShape(hash: Hasher, h: TokenHolding)
    ensures forall c :: c in Entry(hash, h) ==> c != ';'
    ensures |Entry(hash, h)| >= 43 && Entry(hash, h)[42] == '='
    ensures Parse(hash, Entry(hash, h)[..42]) == Ok(h.contract)
    ensures ParseBalance(Entry(hash, h)[43..]) == Some(h.balance)
  {
    hide Parse, ChecksumDigits, ParseInt, PrintInt;
    var e := Entry(hash, h);
    assert e[..42] == Hex(hash, h.contract) && e[43..] == BalanceText(h.balance);
    ParsePrinted(hash, h.contract);
    if h.balance.Some? { ParsePrintInt(h.balance.value); }
    DigitsPlain(hash, h.contract);
  }

  lemma DigitsPlain(hash: Hasher, a: Address)
    ensures forall c :: c in ChecksumDigits(hash, a) ==> c != ';'
  {
    forall c | c in ChecksumDigits(hash, a) ensures c != ';' {
      var i :| 0 <= i < 40 && ChecksumDigits(hash, a)[i] == c;
      assert HexEncode(a)[i] in HexEncode(a);
    }
  }

  lemma SplitOne(e: string)
    requires forall c :: c in e ==> c != ';'
    ensures Split(e) == [e]
  {
    SplitAppend("", e);
    assert "" + e == e;
  }

  lemma EntryTextsSnoc(hash: Hasher, tokens: seq<TokenHolding>)
    requires tokens != []
    ensures EntryTexts(hash, tokens) == EntryTexts(hash, tokens[..|tokens| - 1]) + [Entry(hash, tokens[|tokens| - 1])]
  {
  }

  lemma {:induction false} SplitJoined(hash: Hasher, tokens: seq<TokenHolding>)
    requires tokens != []
    ensures Split(JoinEntries(hash, tokens)) == EntryTexts(hash, tokens)
  {
    var n := |tokens| - 1;
    var e := Entry(hash, tokens[n]);
    assert forall c :: c in e ==> c != ';' by { EntryShape(hash, tokens[n]); }
    EntryTextsSnoc(hash, tokens);
    if n == 0 {
      SplitOne(e);
    } else {
      SplitJoined(hash, tokens[..n]);
      SplitNext(JoinEntries(hash, tokens[..n]), e);
    }
  }

  lemma {:induction false} ParseTexts(hash: Hasher, tokens: seq<TokenHolding>)
    ensures ParseEntries(hash, EntryTexts(hash, tokens)) == Some(BalanceMap(tokens))
  {
    if tokens != [] {
      var n := |tokens| - 1;
      EntryShape(hash, tokens[n]);
      ParseTexts(hash, tokens[..n]);
      assert EntryTexts(hash, tokens)[..n] == EntryTexts(hash, tokens[..n]);
    }
  }

  /** The parser undoes the printer, whatever the order of the sorted list. */
  lemma ParseJoined(hash: Hasher, tokens: seq<TokenHolding>)
    ensures ParseHoldings(hash, JoinEntries(hash, tokens)) == Some(BalanceMap(tokens))
  {
    if tokens != [] {
      SplitJoined(hash, tokens);
      ParseTexts(hash, tokens);
      EntryShape(hash, tokens[|tokens| - 1]);
    }
  }

  lemma {:induction false} BalanceMapMeaning(tokens: seq<TokenHolding>)
    requires DistinctContracts(tokens)
    ensures BalanceMap(tokens).Keys == set h | h in tokens :: h.contract
    ensures forall h :: h in tokens ==> h.contract in BalanceMap(tokens) && BalanceMap(tokens)[h.contract] == h.balance
  {
    if tokens != [] {
      var n := |tokens| - 1;
      BalanceMapMeaning(tokens[..n]);
      assert tokens == tokens[..n] + [tokens[n]];
    }
  }

  lemma DistinctContractsSorted(tokens: seq<TokenHolding>)
    requires DistinctContracts(tokens)
    ensures DistinctContracts(SortBy(ContractKey, tokens))
    ensures StrictlyAscending(ContractKey, SortBy(ContractKey, tokens))
    ensures forall h :: h in SortBy(ContractKey, tokens) <==> h in tokens
  {
    SortStrict(ContractKey, tokens);
    var r := SortBy(ContractKey, tokens);
    forall h ensures h in r <==> h in tokens { SortMember(ContractKey, tokens, h); }
    forall i, j | 0 <= i < j < |r| ensures r[i].contract != r[j].contract {
      LexIrreflexive(r[i].contract);
    }
  }

  /** Sorting does not change which balances a list holds. */
  lemma BalanceMapSorted(tokens: seq<TokenHolding>)
    requires DistinctContracts(tokens)
    ensures BalanceMap(SortBy(ContractKey, tokens)) == BalanceMap(tokens)
  {
    DistinctContractsSorted(tokens);
    var r := SortBy(ContractKey, tokens);
    BalanceMapMeaning(tokens);
    BalanceMapMeaning(r);
    forall a | a in BalanceMap(tokens) ensures a in BalanceMap(r) && BalanceMap(r)[a] == BalanceMap(tokens)[a] {
      var h :| h in tokens && h.contract == a;
      assert h in r;
    }
  }

  /** Printing holdings is undone by the parser. */
  lemma CanonicalRoundTrip(hash: Hasher, tokens: seq<TokenHolding>)
    requires DistinctContracts(tokens)
    ensures ParseHoldings(hash, Canonical(hash, tokens)) == Some(BalanceMap(tokens))
  {
    BalanceMapSorted(tokens);
    ParseJoined(hash, SortBy(ContractKey, tokens));
  }

  // ---- equal balances, equal strings --------------------------------------

  function Contracts(tokens: seq<TokenHolding>): seq<Address> {
    seq(|tokens|, i requires 0 <= i < |tokens| => tokens[i].contract)
  }

  function AddressKey(a: Address): seq<int> { a }

  lemma SortedContracts(s: seq<TokenHolding>, t: seq<TokenHolding>)
    requires DistinctContracts(s) && DistinctContracts(t)
    requires StrictlyAscending(ContractKey, s) && StrictlyAscending(ContractKey, t)
    requires BalanceMap(s) == BalanceMap(t)
    ensures Contracts(s) == Contracts(t)
  {
    BalanceMapMeaning(s);
    BalanceMapMeaning(t);
    forall a ensures a in Contracts(s) <==> a in Contracts(t) {
      ContractsAreKeys(s, a);
      ContractsAreKeys(t, a);
    }
    StrictUnique(AddressKey, Contracts(s), Contracts(t));
  }

  lemma ContractsAreKeys(tokens: seq<TokenHolding>, a: Address)
    requires DistinctContracts(tokens)
    ensures a in Contracts(tokens) <==> a in BalanceMap(tokens)
  {
    BalanceMapMeaning(tokens);
    if a in Contracts(tokens) {
      var i :| 0 <= i < |tokens| && Contracts(tokens)[i] == a;
      assert tokens[i] in tokens;
    }
    if a in BalanceMap(tokens) {
      var h :| h in tokens && h.contract == a;
      var i :| 0 <= i < |tokens| && tokens[i] == h;
      assert Contracts(tokens)[i] == a;
    }
  }

  lemma {:induction false} JoinSameEntries(hash: Hasher, s: seq<TokenHolding>, t: seq<TokenHolding>)
    requires EntryTexts(hash, s) == EntryTexts(hash, t)
    ensures JoinEntries(hash, s) == JoinEntries(hash, t)
  {
    hide Entry;
    assert |s| == |EntryTexts(hash, s)| == |t|;
    if s != [] {
      var n := |s| - 1;
      assert EntryTexts(hash, s)[n] == EntryTexts(hash, t)[n];
      assert EntryTexts(hash, s[..n]) == EntryTexts(hash, s)[..n] == EntryTexts(hash, t[..n]);
      JoinSameEntries(hash, s[..n], t[..n]);
    }
  }

  lemma SameBalancesSameText(hash: Hasher, s: seq<TokenHolding>, t: seq<TokenHolding>)
    requires DistinctContracts(s) && DistinctContracts(t)
    requires StrictlyAscending(ContractKey, s) && StrictlyAscending(ContractKey, t)
    requires BalanceMap(s) == BalanceMap(t)
    ensures JoinEntries(hash, s) == JoinEntries(hash, t)
  {
    SortedContracts(s, t);
    BalanceMapMeaning(s);
    BalanceMapMeaning(t);
    assert |s| == |Contracts(s)| == |t|;
    forall i | 0 <= i < |s| ensures EntryTexts(hash, s)[i] == EntryTexts(hash, t)[i] {
      assert s[i].contract == Contracts(s)[i] == Contracts(t)[i] == t[i].contract;
      assert s[i] in s && t[i] in t;
    }
    assert EntryTexts(hash, s) == EntryTexts(hash, t);
    JoinSameEntries(hash, s, t);
  }

  /** Two lists print alike exactly when they hold the same balances: neither input
      order nor metadata matters, and no balance, a zero balance and no entry differ. */
  lemma CanonicalIffSameBalances(hash: Hasher, s: seq<TokenHolding>, t: seq<TokenHolding>)
    requires DistinctContracts(s) && DistinctContracts(t)
    ensures Canonical(hash, s) == Canonical(hash, t) <==> BalanceMap(s) == BalanceMap(t)
  {
    CanonicalRoundTrip(hash, s);
    CanonicalRoundTrip(hash, t);
    if BalanceMap(s) == BalanceMap(t) {
      BalanceMapSorted(s);
      BalanceMapSorted(t);
      DistinctContractsSorted(s);
      DistinctContractsSorted(t);
      SameBalancesSameText(hash, SortBy(ContractKey, s), SortBy(ContractKey, t));
    }
  }

  /** Split at its semicolons the string is the entries in byte order of their contracts, each
      the printed contract, an equals sign and the balance in decimal, or nothing for none. */
  lemma CanonicalPieces(hash: Hasher, tokens: seq<TokenHolding>, sorted: seq<TokenHolding>, i: nat)
    requires DistinctContracts(tokens) && i < |sorted|
    requires forall h :: h in sorted <==> h in tokens
    requires forall j, k :: 0 <= j < k < |sorted| ==> LexLess(sorted[j].contract, sorted[k].contract)
    ensures var pieces, h := Split(Canonical(hash, tokens)), sorted[i];
      && |pieces| == |sorted|
      && (h.balance.None? ==> pieces[i] == Hex(hash, h.contract) + "=")
      && (h.balance.Some? ==> pieces[i] == Hex(hash, h.contract) + "=" + PrintInt(h.balance.value))
  {
    hide Hex, PrintInt, SortBy;
    DistinctContractsSorted(tokens);
    StrictUnique(ContractKey, sorted, SortBy(ContractKey, tokens));
    SplitJoined(hash, sorted);
    var h := sorted[i];
    assert h.balance.None? ==> Entry(hash, h) == Hex(hash, h.contract) + "=";
  }
}
