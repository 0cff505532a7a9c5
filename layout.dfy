/** The arithmetic of the printed tables: `pad` and the column widths of the
    check script, and the column widths of the standalone script. */
module Layout {
  import opened Wrappers
  import opened Ansi
  import opened Matrix

  /** `' ' * n`: no spaces at all when `n` is not positive. */
  function Spaces(n: int): (r: string)
    ensures |r| == if n > 0 then n else 0
    ensures forall i :: 0 <= i < |r| ==> r[i] == ' '
  {
    if n <= 0 then "" else Spaces(n - 1) + " "
  }

  /** The width `pad` centres by: `text_width` when given and non-zero,
      otherwise the length of the text. */
  function PadWidth(text: string, textWidth: Option<int>): int
  {
    if textWidth == None || textWidth == Some(0) then |text| else textWidth.value
  }

  /** `pad`: half the free space on the left (rounded down), the rest on the
      right. */
  function Pad(text: string, width: int, textWidth: Option<int>): string
  {
    var w := width - PadWidth(text, textWidth);
    var left := w / 2;
    Spaces(left) + text + Spaces(w - left)
  }

  /** When the text is wider than the column, `pad` leaves it alone. */
  lemma PadOverflow(text: string, width: int, textWidth: Option<int>)
    requires PadWidth(text, textWidth) > width
    ensures Pad(text, width, textWidth) == text
  {
    var w := width - PadWidth(text, textWidth);
    assert w / 2 <= 0 && w - w / 2 <= 0;
  }

  /** Otherwise the text is centred: `left` spaces before it and `left` or
      `left + 1` after it, `width` characters in all when the text is as
      wide as it is long. */
  lemma PadCentres(text: string, width: int, textWidth: Option<int>, left: int)
    requires 0 <= left && 2 * left <= width - PadWidth(text, textWidth) <= 2 * left + 1
    ensures Pad(text, width, textWidth) == Spaces(left) + text + Spaces(width - PadWidth(text, textWidth) - left)
    ensures |Pad(text, width, textWidth)| == |text| + width - PadWidth(text, textWidth)
  {
    var w := width - PadWidth(text, textWidth);
    assert w / 2 == left;
  }

  /** Every row reaches every column of the headers. */
  predicate Rectangular(headers: seq<string>, data: Table)
  {
    forall i :: 0 <= i < |data| ==> |data[i]| == |headers|
  }

  /** `w` is at least as wide as the header and every cell of column `col`. */
  predicate Covers(w: int, header: string, data: Table, col: nat)
    requires forall i :: 0 <= i < |data| ==> col < |data[i]|
  {
    w >= |header| && forall i :: 0 <= i < |data| ==> w >= |data[i][col]|
  }

  /** `w` is the width of the header or of a cell of column `col`. */
  predicate Attained(w: int, header: string, data: Table, col: nat)
    requires forall i :: 0 <= i < |data| ==> col < |data[i]|
  {
    w == |header| || exists i :: 0 <= i < |data| && w == |data[i][col]|
  }

  /** The inner loop of the check script's width computation: the widest of
      the header and the cells of one column. */
  method ColumnMax(header: string, data: Table, col: nat) returns (m: int)
    requires forall i :: 0 <= i < |data| ==> col < |data[i]|
    ensures Covers(m, header, data, col) && Attained(m, header, data, col)
  {
    m := |header|;
    for i := 0 to |data|
      invariant m >= |header| && forall k :: 0 <= k < i ==> m >= |data[k][col]|
      invariant m == |header| || exists k :: 0 <= k < i && m == |data[k][col]|
    {
      if |data[i][col]| > m {
        m := |data[i][col]|;
      }
    }
  }

  /** `max(len(g) for g in groups)`. */
  method LongestName(groups: seq<string>) returns (m: int)
    requires groups != []
    ensures forall g :: g in groups ==> m >= |g|
    ensures exists g :: g in groups && m == |g|
  {
    m := |groups[0]|;
    for i := 1 to |groups|
      invariant forall k :: 0 <= k < i ==> m >= |groups[k]|
      invariant exists k :: 0 <= k < i && m == |groups[k]|
    {
      if |groups[i]| > m {
        m := |groups[i]|;
      }
    }
  }

  /** The column widths of the check script's table: each column is as wide
      as its header and its widest cell, and at least 3; the first column is
      also as wide as the longest group name, which heads the group
      separator lines. */
  method ColumnWidths(headers: seq<string>, data: Table, groups: seq<string>) returns (widths: seq<int>)
    requires |headers| > 0 && groups != [] && Rectangular(headers, data)
    ensures |widths| == |headers|
    ensures forall c :: 0 <= c < |headers| ==> widths[c] >= 3 && Covers(widths[c], headers[c], data, c)
    ensures forall g :: g in groups ==> widths[0] >= |g|
    ensures forall c :: 1 <= c < |headers| ==> widths[c] == 3 || Attained(widths[c], headers[c], data, c)
    ensures widths[0] == 3 || Attained(widths[0], headers[0], data, 0) || exists g :: g in groups && widths[0] == |g|
  {
    var ncols := |headers|;
    for i := 0 to |data|
      invariant ncols == |headers|
    {
      if |data[i]| > ncols {
        ncols := |data[i]|;
      }
    }
    widths := [];
    for col := 0 to ncols
      invariant |widths| == col
      invariant forall c :: 0 <= c < col ==> widths[c] >= 3 && Covers(widths[c], headers[c], data, c)
      invariant forall c :: 0 <= c < col ==> widths[c] == 3 || Attained(widths[c], headers[c], data, c)
    {
      var maxWidth := ColumnMax(headers[col], data, col);
      widths := widths + [if 3 > maxWidth then 3 else maxWidth];
    }
    var longest := LongestName(groups);
    if longest > widths[0] {
      widths := widths[0 := longest];
    }
  }

  /** The colour code and the reset code add nine characters to a cell. */
  lemma PaintLength(colour: string, text: string)
    requires colour in {GREEN, RED, ORANGE}
    ensures |Paint(colour, text)| == |text| + 9
  {
  }

  /** The visible length of each cell of a row, colour codes removed. */
  function Visible(row: seq<string>): (r: seq<int>)
    ensures |r| == |row|
  {
    seq(|row|, c requires 0 <= c < |row| => |StripAnsi(row[c])|)
  }

  /** The visible lengths of every row. */
  function VisibleTable(data: Table): (r: seq<seq<int>>)
    ensures |r| == |data| && forall i :: 0 <= i < |data| ==> |r[i]| == |data[i]|
  {
    seq(|data|, i requires 0 <= i < |data| => Visible(data[i]))
  }

  /** One row of the standalone width loop applied to the widths `ws`: each
      cell widens its column to its visible length `vis[c]`. */
  function Widen(ws: seq<int>, vis: seq<int>): (r: seq<int>)
    requires |vis| <= |ws|
    ensures |r| == |ws|
  {
    seq(|ws|, c requires 0 <= c < |ws| => if c < |vis| && vis[c] > ws[c] then vis[c] else ws[c])
  }

  /** Every row at most `n` long. */
  predicate Narrow<T>(rows: seq<seq<T>>, n: int)
  {
    forall i :: 0 <= i < |rows| ==> |rows[i]| <= n
  }

  /** The width loop over all rows, one row after another. */
  function WidenAll(ws: seq<int>, rows: seq<seq<int>>): (r: seq<int>)
    requires Narrow(rows, |ws|)
    ensures |r| == |ws|
  {
    if rows == [] then ws else Widen(WidenAll(ws, rows[..|rows| - 1]), rows[|rows| - 1])
  }

  /** One row widens a column to at most the visible length of its cell. */
  lemma WidenBounds(ws: seq<int>, vis: seq<int>, c: int)
    requires |vis| <= |ws| && 0 <= c < |ws|
    ensures Widen(ws, vis)[c] >= ws[c]
    ensures c < |vis| ==> Widen(ws, vis)[c] >= vis[c]
    ensures Widen(ws, vis)[c] == ws[c] || (c < |vis| && Widen(ws, vis)[c] == vis[c])
  {
  }

  /** After the width loop every column is as wide as it was and as each of
      its cells, and no wider than the widest of those. */
  lemma {:induction false} WidenAllBounds(ws: seq<int>, rows: seq<seq<int>>, c: int)
    requires Narrow(rows, |ws|) && 0 <= c < |ws|
    ensures WidenAll(ws, rows)[c] >= ws[c]
    ensures forall i :: 0 <= i < |rows| && c < |rows[i]| ==> WidenAll(ws, rows)[c] >= rows[i][c]
    ensures WidenAll(ws, rows)[c] == ws[c]
      || exists i :: 0 <= i < |rows| && c < |rows[i]| && WidenAll(ws, rows)[c] == rows[i][c]
  {
    if rows != [] {
      var n := |rows| - 1;
      var front := rows[..n];
      assert Narrow(front, |ws|);
      var prev := WidenAll(ws, front);
      var cur := Widen(prev, rows[n]);
      assert WidenAll(ws, rows) == cur;
      WidenAllBounds(ws, front, c);
      WidenBounds(prev, rows[n], c);
      forall i | 0 <= i < |rows| && c < |rows[i]|
        ensures cur[c] >= rows[i][c]
      {
        if i < n {
          assert rows[i] == front[i];
        }
      }
      if cur[c] != ws[c] && cur[c] == prev[c] {
        var i :| 0 <= i < n && c < |front[i]| && prev[c] == front[i][c];
        assert rows[i] == front[i];
      }
    }
  }

  /** The widest of the header and every name in `names`. */
  function Longest(header: string, names: seq<string>): (m: int)
    ensures m >= |header| && forall f :: f in names ==> m >= |f|
    ensures m == |header| || exists f :: f in names && m == |f|
  {
    if names == [] then |header|
    else
      var front := Longest(header, names[..|names| - 1]);
      var last := names[|names| - 1];
      assert forall f :: f in names ==> f in names[..|names| - 1] || f == last;
      if |last| > front then |last| else front
  }

  /** The widths before the row loop: each header, and the widest input name
      in the first column. */
  function StartWidths(headers: seq<string>, inputs: seq<string>): (r: seq<int>)
    ensures |r| == |headers|
  {
    seq(|headers|, c requires 0 <= c < |headers| => if c == 0 then Longest(headers[0], inputs) else |headers[c]|)
  }

  /** The first-column loop over the input names. */
  method FirstColumnWidth(header: string, inputs: seq<string>) returns (m: int)
    ensures m == Longest(header, inputs)
  {
    m := |header|;
    for k := 0 to |inputs|
      invariant m == Longest(header, inputs[..k])
    {
      assert inputs[..k + 1][..k] == inputs[..k];
      if |inputs[k]| > m {
        m := |inputs[k]|;
      }
    }
    assert inputs[..|inputs|] == inputs;
  }

  /** The standalone widths fit the header, the visible text of every cell
      and, in the first column, every input name, and each is the width of
      one of those. */
  lemma StandaloneWidthBounds(headers: seq<string>, inputs: seq<string>, data: Table, c: int)
    requires Narrow(data, |headers|) && 0 <= c < |headers|
    ensures WidenAll(StartWidths(headers, inputs), VisibleTable(data))[c] >= |headers[c]|
    ensures forall i :: 0 <= i < |data| && c < |data[i]| ==>
      WidenAll(StartWidths(headers, inputs), VisibleTable(data))[c] >= |StripAnsi(data[i][c])|
    ensures c == 0 ==> forall f :: f in inputs ==> WidenAll(StartWidths(headers, inputs), VisibleTable(data))[0] >= |f|
    ensures var w := WidenAll(StartWidths(headers, inputs), VisibleTable(data))[c];
      || w == |headers[c]|
      || (exists i :: 0 <= i < |data| && c < |data[i]| && w == |StripAnsi(data[i][c])|)
      || (c == 0 && exists f :: f in inputs && w == |f|)
  {
    WidenAllBounds(StartWidths(headers, inputs), VisibleTable(data), c);
  }

  /** One row of the standalone width loop, in place, given the visible
      length of each of its cells. */
  method WidenRow(w: array<int>, vis: seq<int>)
    requires |vis| <= w.Length
    modifies w
    ensures w[..] == Widen(old(w[..]), vis)
  {
    ghost var before := w[..];
    for c := 0 to |vis|
      invariant forall q :: 0 <= q < c ==> w[q] == Widen(before, vis)[q]
      invariant forall q :: c <= q < w.Length ==> w[q] == before[q]
    {
      if vis[c] > w[c] {
        w[c] := vis[c];
      }
    }
  }

  /** The column widths of the standalone script: the header row is laid out
      with `widths`, where each column fits its header and the visible text
      of its cells and the first column fits every input name; the data rows
      with `rowWidths`, nine wider in every column but the first, room for
      the colour codes of a painted verdict. */
  method StandaloneWidths(headers: seq<string>, inputs: seq<string>, data: Table)
    returns (widths: seq<int>, rowWidths: seq<int>)
    requires inputs != [] ==> |headers| > 0
    requires Narrow(data, |headers|)
    ensures |widths| == |headers| && |rowWidths| == |headers|
    ensures widths == WidenAll(StartWidths(headers, inputs), VisibleTable(data))
    ensures |headers| > 0 ==> rowWidths[0] == widths[0]
    ensures forall c :: 1 <= c < |headers| ==> rowWidths[c] == widths[c] + 9
  {
    var w := new int[|headers|](c requires 0 <= c < |headers| => |headers[c]|);
    if w.Length > 0 {
      var first := FirstColumnWidth(headers[0], inputs);
      w[0] := first;
    }
    ghost var base := w[..];
    assert base == StartWidths(headers, inputs);
    ghost var vis := VisibleTable(data);
    for r := 0 to |data|
      invariant w[..] == WidenAll(base, vis[..r])
    {
      assert vis[..r + 1][..r] == vis[..r];
      WidenRow(w, Visible(data[r]));
    }
    assert vis[..|data|] == vis;
    widths := w[..];
    AddColourRoom(w);
    rowWidths := w[..];
  }

  /** `for i in range(1, len(col_widths)): col_widths[i] += 9`. */
  method AddColourRoom(w: array<int>)
    modifies w
    ensures w.Length > 0 ==> w[0] == old(w[0])
    ensures forall q :: 1 <= q < w.Length ==> w[q] == old(w[q]) + 9
  {
    var c := 1;
    while c < w.Length
      invariant 1 <= c
      invariant w.Length > 0 ==> w[0] == old(w[0])
      invariant forall q :: 1 <= q < c && q < w.Length ==> w[q] == old(w[q]) + 9
      invariant forall q :: c <= q < w.Length ==> w[q] == old(w[q])
    {
      w[c] := w[c] + 9;
      c := c + 1;
    }
  }

  /** A painted verdict whose visible text fits the header row's column fits
      the data row's column. */
  lemma PaintedCellFits(colour: string, text: string, width: int)
    requires colour in {GREEN, RED, ORANGE} && ESC !in text
    requires width >= |StripAnsi(Paint(colour, text))|
    ensures |Paint(colour, text)| <= width + 9
  {
    StripPainted(colour, text);
    PaintLength(colour, text);
  }
}
