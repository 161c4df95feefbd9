/**
 * The financial-transaction form of the front end: the sanitiser on the
 * amount field, the product and order selectors that toggle, and the shape
 * of the submitted payload.
 */
module TransactionForm {
  import opened Wrappers
  import opened Text

  // ---------------------------------------------------------------------
  // The amount field
  // ---------------------------------------------------------------------

  predicate ValorChar(c: char)
  {
    IsDigit(c) || c == ','
  }

  /** `s.replace(/[^0-9,]/g, "")`: the digits and commas of `s`, in order. */
  function ValorChars(s: string): (r: string)
    ensures |r| <= |s|
    ensures forall i :: 0 <= i < |r| ==> ValorChar(r[i])
  {
    if |s| == 0 then ""
    else (if ValorChar(s[0]) then [s[0]] else "") + ValorChars(s[1..])
  }

  /** `s.split(",")[0]`: what comes before the first comma, or all of `s`. */
  function UpToComma(s: string): (r: string)
    ensures |r| <= |s| && r == s[..|r|]
    ensures ',' !in r
    ensures |r| < |s| ==> s[|r|] == ','
  {
    if |s| == 0 || s[0] == ',' then ""
    else [s[0]] + UpToComma(s[1..])
  }

  function Min(a: int, b: int): int
  {
    if a < b then a else b
  }

  /**
   * The rebuilding step of `handleValorChange`: with a comma present, the
   * first two pieces `split(",")` yields, the integer part and at most two
   * decimals, joined by one comma; without one, the text as it is.
   */
  function OneComma(f: string): string
  {
    if ',' !in f then f
    else
      var inteira := UpToComma(f);
      var decimal := UpToComma(f[|inteira| + 1..]);
      inteira + "," + decimal[..Min(2, |decimal|)]
  }

  /** `handleValorChange`: keep digits and commas, then at most one comma and two decimals. */
  function SanitiseValor(input: string): string
  {
    OneComma(ValorChars(input))
  }

  /** Text with a comma has a comma after its first piece. */
  lemma {:induction false} UpToCommaFound(s: string)
    requires ',' in s
    ensures |UpToComma(s)| < |s|
  {
    var u := UpToComma(s);
    assert |u| == |s| ==> u == s;
  }

  lemma UpToCommaAt(s: string, k: int)
    requires 0 <= k < |s| && s[k] == ',' && ',' !in s[..k]
    ensures UpToComma(s) == s[..k]
  {
  }

  lemma UpToCommaNone(s: string)
    requires ',' !in s
    ensures UpToComma(s) == s
  {
  }

  lemma {:induction false} PrefixAroundComma(f: string, k: nat, decimal: string, m: nat)
    requires k < |f| && f[k] == ','
    requires k + 1 + |decimal| <= |f| && decimal == f[k + 1..k + 1 + |decimal|]
    requires m <= |decimal|
    ensures f[..k] + "," + decimal[..m] == f[..k + 1 + m]
  {
    assert decimal[..m] == f[k + 1..k + 1 + m];
  }

  /** With a comma, the rebuilt text is the input up to the comma and at most two more characters. */
  lemma {:induction false} OneCommaCut(f: string)
    requires ',' in f
    ensures var k := |UpToComma(f)|;
      var decimal := UpToComma(f[k + 1..]);
      var n := k + 1 + Min(2, |decimal|);
      k < |f| && f[k] == ',' && n <= |f| && OneComma(f) == f[..n]
  {
    var k := |UpToComma(f)|;
    UpToCommaFound(f);
    var decimal := UpToComma(f[k + 1..]);
    assert decimal == f[k + 1..k + 1 + |decimal|];
    PrefixAroundComma(f, k, decimal, Min(2, |decimal|));
  }

  /** After a comma at `k`: no comma among the decimals taken, and a comma or a third decimal where they stop. */
  lemma {:induction false} DecimalsTaken(f: string, k: nat)
    requires k < |f| && f[k] == ','
    ensures var m := Min(2, |UpToComma(f[k + 1..])|);
      k + 1 + m <= |f| && ',' !in f[k + 1..k + 1 + m] && (k + 1 + m < |f| ==> f[k + 1 + m] == ',' || m == 2)
  {
    var rest := f[k + 1..];
    var decimal := UpToComma(rest);
    var m := Min(2, |decimal|);
    assert f[k + 1..k + 1 + m] == decimal[..m] by {
      assert decimal == rest[..|decimal|];
    }
    assert ',' !in decimal[..m] by {
      assert forall i :: 0 <= i < m ==> decimal[..m][i] == decimal[i];
    }
    if k + 1 + m < |f| && m < 2 {
      assert f[k + 1 + m] == rest[|decimal|];
    }
  }

  /** What stops the rebuilt text: a second comma, or two decimals already taken. */
  lemma {:induction false} OneCommaStops(f: string)
    requires ',' in f
    ensures var k := |UpToComma(f)|;
      var n := k + 1 + Min(2, |UpToComma(f[k + 1..])|);
      ',' !in f[..k] && ',' !in f[k + 1..n] && (n < |f| ==> f[n] == ',' || n == k + 3)
  {
    UpToCommaFound(f);
    DecimalsTaken(f, |UpToComma(f)|);
  }

  /** The longest prefix of the input with at most one comma and at most two characters after it. */
  lemma {:induction false} OneCommaPrefix(f: string)
    ensures var r := OneComma(f);
      |r| <= |f| && r == f[..|r|] &&
      (forall i, j :: 0 <= i < j < |r| && r[i] == ',' ==> r[j] != ',') &&
      (forall i :: 0 <= i < |r| && r[i] == ',' ==> |r| <= i + 3) &&
      (|r| < |f| ==> exists k :: 0 <= k < |r| && r[k] == ',' && (f[|r|] == ',' || |r| == k + 3))
  {
    if ',' in f {
      OneCommaCut(f);
      OneCommaStops(f);
      var r := OneComma(f);
      var k := |UpToComma(f)|;
      assert r[..k] == f[..k] && r[k + 1..] == f[k + 1..|r|];
      assert forall i :: 0 <= i < k ==> r[i] == r[..k][i];
      assert forall i :: k < i < |r| ==> r[i] == r[k + 1..][i - k - 1];
      assert r[k] == ',';
    }
  }

  lemma {:induction false} OneCommaFixed(r: string, k: nat)
    requires k < |r| && r[k] == ',' && |r| <= k + 3
    requires ',' !in r[..k] && ',' !in r[k + 1..]
    ensures OneComma(r) == r
  {
    UpToCommaAt(r, k);
    UpToCommaNone(r[k + 1..]);
    assert r == r[..k] + "," + r[k + 1..];
  }

  /** Rebuilding text that already has at most one comma and two decimals changes nothing. */
  lemma {:induction false} OneCommaIdempotent(f: string)
    ensures OneComma(OneComma(f)) == OneComma(f)
  {
    var r := OneComma(f);
    OneCommaPrefix(f);
    if ',' in r {
      var k :| 0 <= k < |r| && r[k] == ',';
      assert ',' !in r[..k] by {
        assert forall i :: 0 <= i < k ==> r[..k][i] == r[i];
      }
      assert ',' !in r[k + 1..] by {
        var rest := r[k + 1..];
        assert forall j :: 0 <= j < |rest| ==> rest[j] == r[k + 1 + j];
      }
      OneCommaFixed(r, k);
    }
  }

  /** The sanitised amount is the longest prefix of its digits and commas with one comma and two decimals at most. */
  lemma {:induction false} SanitiseValorPrefix(input: string)
    ensures var f, r := ValorChars(input), SanitiseValor(input);
      |r| <= |f| && r == f[..|r|] &&
      (forall i, j :: 0 <= i < j < |r| && r[i] == ',' ==> r[j] != ',') &&
      (forall i :: 0 <= i < |r| && r[i] == ',' ==> |r| <= i + 3) &&
      (|r| < |f| ==> exists k :: 0 <= k < |r| && r[k] == ',' && (f[|r|] == ',' || |r| == k + 3))
  {
    OneCommaPrefix(ValorChars(input));
  }

  /** The sanitised amount holds only digits and commas. */
  lemma {:induction false} SanitiseValorChars(input: string)
    ensures var r := SanitiseValor(input);
      forall i :: 0 <= i < |r| ==> IsDigit(r[i]) || r[i] == ','
  {
    OneCommaPrefix(ValorChars(input));
    var f, r := ValorChars(input), SanitiseValor(input);
    forall i | 0 <= i < |r|
      ensures IsDigit(r[i]) || r[i] == ','
    {
      assert r[i] == f[i];
    }
  }

  /** Without a comma the filtered input is taken as it is. */
  lemma SanitiseWithoutComma(input: string)
    requires ',' !in ValorChars(input)
    ensures SanitiseValor(input) == ValorChars(input)
  {
  }

  /** Whatever follows a second comma is dropped, the second comma included. */
  lemma {:induction false} SecondCommaDiscarded(input: string, k1: int, k2: int)
    requires var f := ValorChars(input); 0 <= k1 < k2 < |f| && f[k1] == ',' && f[k2] == ','
    ensures |SanitiseValor(input)| <= k2
  {
    OneCommaPrefix(ValorChars(input));
    var f, r := ValorChars(input), SanitiseValor(input);
    assert forall i :: 0 <= i < |r| ==> r[i] == f[i];
  }

  /** Sanitising again changes nothing. */
  lemma {:induction false} SanitiseValorIdempotent(input: string)
    ensures SanitiseValor(SanitiseValor(input)) == SanitiseValor(input)
  {
    var r := SanitiseValor(input);
    SanitiseValorChars(input);
    ValorCharsKeeps(r);
    OneCommaIdempotent(ValorChars(input));
  }

  /** The filter works character by character, so it distributes over concatenation. */
  lemma {:induction false} ValorCharsAppend(a: string, b: string)
    ensures ValorChars(a + b) == ValorChars(a) + ValorChars(b)
    decreases |a|
  {
    if |a| == 0 {
      assert a + b == b;
    } else {
      var head := if ValorChar(a[0]) then [a[0]] else "";
      assert (a + b)[0] == a[0];
      assert (a + b)[1..] == a[1..] + b;
      assert ValorChars(a + b) == head + ValorChars(a[1..] + b);
      ValorCharsAppend(a[1..], b);
      assert ValorChars(a) == head + ValorChars(a[1..]);
    }
  }

  /** Text with no digit and no comma is filtered away entirely. */
  lemma {:induction false} ValorCharsDrops(s: string)
    requires forall i :: 0 <= i < |s| ==> !ValorChar(s[i])
    ensures ValorChars(s) == ""
    decreases |s|
  {
    if |s| > 0 {
      ValorCharsDrops(s[1..]);
    }
  }

  /** Text of digits and commas passes the filter unchanged. */
  lemma {:induction false} ValorCharsKeeps(s: string)
    requires forall i :: 0 <= i < |s| ==> ValorChar(s[i])
    ensures ValorChars(s) == s
    decreases |s|
  {
    if |s| > 0 {
      ValorCharsKeeps(s[1..]);
    }
  }

  // ---------------------------------------------------------------------
  // Selectors and payload
  // ---------------------------------------------------------------------

  /** `handleProdutoSelect` / `handlePedidoSelect`: choosing the current id clears it. */
  function Toggle(current: Option<int>, selected: int): (r: Option<int>)
    ensures r.None? <==> current == Some(selected)
    ensures r.Some? ==> r.value == selected
  {
    if current == Some(selected) then None else Some(selected)
  }

  /** Choosing the same id twice in a row leaves it chosen exactly when it was chosen before. */
  lemma ToggleTwice(current: Option<int>, selected: int)
    ensures Toggle(Toggle(current, selected), selected) == (if current == Some(selected) then Some(selected) else None)
  {
    if current == Some(selected) {
      assert Toggle(current, selected) == None;
    } else {
      assert Toggle(current, selected) == Some(selected);
    }
  }

  datatype Tipo = Entrada | Saida

  datatype Payload = Payload(tipo: Tipo, valor: real, data: string, produtoId: Option<int>, pedidoId: Option<int>)

  /**
   * The body `handleSubmit` sends. `parsed` is what `parseFloat` made of the
   * amount text, `None` standing for NaN; an order id of 0 or none is left
   * out of the body.
   */
  function MakePayload(tipo: Tipo, parsed: Option<real>, data: string, produtoId: Option<int>, pedidoId: Option<int>): (p: Payload)
    ensures p.pedidoId.None? <==> pedidoId.None? || pedidoId == Some(0)
    ensures p.pedidoId.Some? ==> p.pedidoId == pedidoId
    ensures p.produtoId == produtoId && p.tipo == tipo && p.data == data
    ensures p.valor >= 0.0
  {
    var valor := if parsed.Some? && parsed.value >= 0.0 then parsed.value else 0.0;
    var pedido := if pedidoId.Some? && pedidoId.value != 0 then pedidoId else None;
    Payload(tipo, valor, data, produtoId, pedido)
  }
}
