/** The pt-BR rendering of an amount already formatted as `R$ 1,234.56`
    (app.py lines 78 and 152): three `str.replace` calls swap the thousands
    and decimal separators through the placeholder "X". */
module Currency {

  /** `s.replace(from, to)` for one-character strings. */
  function Replace(s: string, from: char, to: char): (r: string)
    ensures |r| == |s|
    ensures forall i :: 0 <= i < |s| ==> r[i] == (if s[i] == from then to else s[i])
  {
    if s == [] then []
    else
      var rest := Replace(s[1..], from, to);
      var r := [if s[0] == from then to else s[0]] + rest;
      assert forall i :: 1 <= i < |s| ==> r[i] == rest[i - 1] && s[i] == s[1..][i - 1];
      r
  }

  /** `.replace(",", "X").replace(".", ",").replace("X", ".")`. */
  function SwapSeparators(s: string): string {
    Replace(Replace(Replace(s, ',', 'X'), '.', ','), 'X', '.')
  }

  /** Character by character: a comma becomes a point, a point becomes a
      comma, a literal "X" becomes a point and nothing else changes. */
  lemma SwapSeparatorsAt(s: string)
    ensures |SwapSeparators(s)| == |s|
    ensures forall i :: 0 <= i < |s| ==> (SwapSeparators(s)[i] ==
      if s[i] == ',' then '.' else if s[i] == '.' then ',' else if s[i] == 'X' then '.' else s[i])
  {
    var a := Replace(s, ',', 'X');
    var b := Replace(a, '.', ',');
    var c := Replace(b, 'X', '.');
    forall i | 0 <= i < |s| ensures c[i] ==
      (if s[i] == ',' then '.' else if s[i] == '.' then ',' else if s[i] == 'X' then '.' else s[i])
    {
      assert a[i] == (if s[i] == ',' then 'X' else s[i]);
      assert b[i] == (if a[i] == '.' then ',' else a[i]);
    }
  }

  /** On text without the placeholder (every `{:,.2f}` rendering) the swap
      is its own inverse. */
  lemma SwapSeparatorsInvolution(s: string)
    requires 'X' !in s
    ensures 'X' !in SwapSeparators(s)
    ensures SwapSeparators(SwapSeparators(s)) == s
  {
    var t := SwapSeparators(s);
    SwapSeparatorsAt(s);
    SwapSeparatorsAt(t);
    assert forall i :: 0 <= i < |t| ==> t[i] != 'X';
    assert SwapSeparators(t) == s;
  }

  /** A literal "X" in the input is not restored: the swap is not an
      involution on such text. */
  lemma PlaceholderIsNotRestored(s: string)
    requires 'X' in s
    ensures SwapSeparators(SwapSeparators(s)) != s
  {
    var i :| 0 <= i < |s| && s[i] == 'X';
    SwapSeparatorsAt(s);
    SwapSeparatorsAt(SwapSeparators(s));
    assert SwapSeparators(SwapSeparators(s))[i] == ',';
  }

  /** The rendering of line 78 on a sample amount. */
  lemma SwapSeparatorsExample(s: string)
    requires s == "1,234.50"
    ensures SwapSeparators(s) == "1.234,50"
  {
    SwapSeparatorsAt(s);
    var t := SwapSeparators(s);
    assert t[1] == '.' && t[5] == ',';
    assert t[0] == '1' && t[2] == '2' && t[3] == '3' && t[4] == '4' && t[6] == '5' && t[7] == '0';
  }
}
