/**
  The editor's line buffer (editor.c:24-151): a singly linked list of lines numbered from 1.
  The list is a datatype; an operation that relinks or rewrites nodes in place returns the
  rebuilt list, and `Contents` reads a list as the sequence of its lines.
*/
module Editor {
  import opened Wrappers
  import opened Text

  /** A node of the buffer; `End` is the NULL link that ends the list. */
  datatype Lines = End | Line(text: string, next: Lines)

  /** The lines of a buffer, first to last. */
  function Contents(l: Lines): seq<string>
  {
    match l
    case End => []
    case Line(t, next) => [t] + Contents(next)
  }

  /** What an edit prints. `DeleteError` and `InsertError` are the messages of the checks on
      the predecessor node, which the range checks before them make unreachable. */
  datatype Report =
    | Deleted(n: int)
    | Inserted(n: int)
    | Replaced(n: int)
    | InvalidLineNumber
    | InvalidInsertion
    | DeleteError  // never produced: the range check already found the predecessor
    | InsertError  // never produced: the range check already found the predecessor

  /** The buffer after an edit, and what the edit printed. */
  datatype Edit = Edit(buffer: Lines, report: Report)

  /** `free_lines` (editor.c:34-43): every node is released and the buffer is empty. */
  function FreeLines(l: Lines): (r: Lines)
    ensures Contents(r) == []
  {
    End
  }

  /** `get_line_count` (editor.c:46-54): the loop counts the nodes. */
  function LineCount(l: Lines): (n: nat)
    ensures n == |Contents(l)|
  {
    match l
    case End => 0
    case Line(_, next) => 1 + LineCount(next)
  }

  /** The loop of `get_line`: follow at most `k` links, stopping at the end of the list. */
  function Walk(l: Lines, k: nat): (r: Lines)
    ensures Contents(r) == if k <= |Contents(l)| then Contents(l)[k..] else []
  {
    if k == 0 || l.End? then l else Walk(l.next, k - 1)
  }

  /** `get_line` (editor.c:57-64): the node of line `n`, or `End` when there is none. */
  function GetLine(l: Lines, n: int): (r: Lines)
    ensures r.Line? <==> 1 <= n <= |Contents(l)|
    ensures r.Line? ==> Contents(r) == Contents(l)[n - 1..] && r.text == Contents(l)[n - 1]
  {
    if n <= 0 then End else Walk(l, n - 1)
  }

  /** `prev->next = prev->next->next` with `prev` the `k`-th node; `None` when `prev` or its
      successor is missing. */
  function Unlink(l: Lines, k: nat): (r: Option<Lines>)
    requires k >= 1
    ensures r.Some? <==> k < |Contents(l)|
    ensures r.Some? ==> Contents(r.value) == Contents(l)[..k] + Contents(l)[k + 1..]
  {
    match l
    case End => None
    case Line(t, next) =>
      if k == 1 then
        if next.End? then None else Some(Line(t, next.next))
      else
        match Unlink(next, k - 1)
        case None => None
        case Some(rest) => Some(Line(t, rest))
  }

  /** `new_line->next = prev->next; prev->next = new_line` with `prev` the `k`-th node;
      `None` when `prev` is missing. */
  function Splice(l: Lines, k: nat, t: string): (r: Option<Lines>)
    requires k >= 1
    ensures r.Some? <==> k <= |Contents(l)|
    ensures r.Some? ==> Contents(r.value) == Contents(l)[..k] + [t] + Contents(l)[k..]
  {
    match l
    case End => None
    case Line(u, next) =>
      if k == 1 then Some(Line(u, Line(t, next)))
      else
        match Splice(next, k - 1, t)
        case None => None
        case Some(rest) => Some(Line(u, rest))
  }

  /** The text of the `k`-th node replaced in place. */
  function SetText(l: Lines, k: nat, t: string): (r: Lines)
    requires 1 <= k <= |Contents(l)|
    ensures Contents(r) == Contents(l)[k - 1 := t]
  {
    if k == 1 then Line(t, l.next) else Line(l.text, SetText(l.next, k - 1, t))
  }

  /** The stored form of a line (editor.c:104-111, 142-149): a newline is appended unless the
      text already ends with one. The C code reads the last character, so the text must not
      be empty. */
  function WithNewline(t: string): (r: string)
    requires |t| > 0
    ensures |r| >= |t| && r[|r| - 1] == '\n'
    ensures r[..|t|] == t
    ensures r == t <==> t[|t| - 1] == '\n'
    ensures r != t ==> r == t + "\n"
  {
    if t[|t| - 1] != '\n' then t + "\n" else t
  }

  /** Storing a stored line again leaves it as it is. */
  lemma WithNewlineIdempotent(t: string)
    requires |t| > 0
    ensures WithNewline(WithNewline(t)) == WithNewline(t)
  {
  }

  /** The text a line keeps for a given C string: `strlen`, `strcpy` and `strdup` read it up
      to its first NUL, and that part is stored with its newline. */
  function Stored(text: string): (r: string)
    requires |CString(text)| > 0
    ensures forall k :: 0 <= k < |r| ==> r[k] != '\0'
    ensures |CString(text)| <= |r| <= |CString(text)| + 1
    ensures r[..|CString(text)|] == CString(text) && r[|r| - 1] == '\n'
  {
    WithNewline(CString(text))
  }

  /** Storing a stored line again leaves it as it is. */
  lemma {:induction false} StoredIdempotent(text: string)
    requires |CString(text)| > 0
    ensures |CString(Stored(text))| > 0 && Stored(Stored(text)) == Stored(text)
  {
    CStringWhole(Stored(text));
    WithNewlineIdempotent(CString(text));
  }

  /** `delete_line` (editor.c:67-93): a line number outside 1..count is refused and the
      buffer kept; otherwise exactly that line is removed. */
  function DeleteLine(l: Lines, n: int): (e: Edit)
    ensures e.report == Deleted(n) <==> 1 <= n <= |Contents(l)|
    ensures e.report == Deleted(n) ==> Contents(e.buffer) == Contents(l)[..n - 1] + Contents(l)[n..]
    ensures e.report != Deleted(n) ==> e == Edit(l, InvalidLineNumber)
  {
    if n <= 0 || n > LineCount(l) then Edit(l, InvalidLineNumber)
    else if n == 1 then Edit(l.next, Deleted(n))
    else
      match Unlink(l, n - 1)
      case None => assert false; Edit(l, DeleteError)
      case Some(b) => Edit(b, Deleted(n))
  }

  /** `insert_line` (editor.c:96-129): a position outside 1..count+1 is refused and the
      buffer kept; otherwise the stored text becomes line `n` and the lines from `n` on move
      down by one. The text is read only once the position is accepted. */
  function InsertLine(l: Lines, n: int, text: string): (e: Edit)
    requires 1 <= n <= |Contents(l)| + 1 ==> |CString(text)| > 0
    ensures e.report == Inserted(n) <==> 1 <= n <= |Contents(l)| + 1
    ensures e.report == Inserted(n) ==>
              Contents(e.buffer) == Contents(l)[..n - 1] + [Stored(text)] + Contents(l)[n - 1..]
    ensures e.report != Inserted(n) ==> e == Edit(l, InvalidInsertion)
  {
    if n <= 0 || n > LineCount(l) + 1 then Edit(l, InvalidInsertion)
    else
      var t := Stored(text);
      if n == 1 then Edit(Line(t, l), Inserted(n))
      else
        match Splice(l, n - 1, t)
        case None => assert false; Edit(l, InsertError)
        case Some(b) => Edit(b, Inserted(n))
  }

  /** `replace_line` (editor.c:133-151): a line number without a line is refused and the
      buffer kept; otherwise that line's text becomes the stored text and nothing else
      changes. The text is read only once the line is found. */
  function ReplaceLine(l: Lines, n: int, text: string): (e: Edit)
    requires 1 <= n <= |Contents(l)| ==> |CString(text)| > 0
    ensures e.report == Replaced(n) <==> 1 <= n <= |Contents(l)|
    ensures e.report == Replaced(n) ==> Contents(e.buffer) == Contents(l)[n - 1 := Stored(text)]
    ensures e.report != Replaced(n) ==> e == Edit(l, InvalidLineNumber)
  {
    if GetLine(l, n).End? then Edit(l, InvalidLineNumber)
    else Edit(SetText(l, n, Stored(text)), Replaced(n))
  }

  /** After an insertion at `n`, line `n` holds the stored text, the lines before it are
      unchanged and each later line is the one that was a line higher. */
  lemma {:induction false} InsertThenGet(l: Lines, n: int, text: string, k: int)
    requires 1 <= n <= |Contents(l)| + 1 && |CString(text)| > 0
    ensures LineCount(InsertLine(l, n, text).buffer) == LineCount(l) + 1
    ensures GetLine(InsertLine(l, n, text).buffer, n).text == Stored(text)
    ensures 1 <= k < n ==> GetLine(InsertLine(l, n, text).buffer, k).text == GetLine(l, k).text
    ensures n < k <= |Contents(l)| + 1 ==> GetLine(InsertLine(l, n, text).buffer, k).text == GetLine(l, k - 1).text
  {
    var b := InsertLine(l, n, text).buffer;
    var c := Contents(l);
    PutAt(c, n - 1, Stored(text));
    LineAt(b, n);
    if 1 <= k < n {
      LineAt(b, k);
      LineAt(l, k);
    }
    if n < k <= |c| + 1 {
      LineAt(b, k);
      LineAt(l, k - 1);
    }
  }

  /** Line `k` of a buffer is the `k`-th of its lines. */
  lemma LineAt(l: Lines, k: int)
    requires 1 <= k <= |Contents(l)|
    ensures GetLine(l, k).text == Contents(l)[k - 1]
  {
  }

  /** Where the elements of a sequence are after `x` is put in at index `i`. */
  lemma PutAt<T>(c: seq<T>, i: nat, x: T)
    requires i <= |c|
    ensures |c[..i] + [x] + c[i..]| == |c| + 1 && (c[..i] + [x] + c[i..])[i] == x
    ensures forall k :: 0 <= k < i ==> (c[..i] + [x] + c[i..])[k] == c[k]
    ensures forall k :: i < k <= |c| ==> (c[..i] + [x] + c[i..])[k] == c[k - 1]
  {
  }

  /** Deleting the line just inserted gives back the buffer's lines. */
  lemma {:induction false} InsertThenDelete(l: Lines, n: int, text: string)
    requires 1 <= n <= |Contents(l)| + 1 && |CString(text)| > 0
    ensures DeleteLine(InsertLine(l, n, text).buffer, n).report == Deleted(n)
    ensures Contents(DeleteLine(InsertLine(l, n, text).buffer, n).buffer) == Contents(l)
  {
    var c := Contents(l);
    var d := Contents(InsertLine(l, n, text).buffer);
    assert d == c[..n - 1] + [Stored(text)] + c[n - 1..];
    assert d[..n - 1] == c[..n - 1];
    assert d[n..] == c[n - 1..];
    assert c[..n - 1] + c[n - 1..] == c;
  }

  /** After deleting line `n`, the lines before it are unchanged and each later line is the
      one that was a line lower. */
  lemma {:induction false} DeleteThenGet(l: Lines, n: int, k: int)
    requires 1 <= n <= |Contents(l)|
    ensures LineCount(DeleteLine(l, n).buffer) == LineCount(l) - 1
    ensures 1 <= k < n ==> GetLine(DeleteLine(l, n).buffer, k).text == GetLine(l, k).text
    ensures n <= k < |Contents(l)| ==> GetLine(DeleteLine(l, n).buffer, k).text == GetLine(l, k + 1).text
  {
    var c := Contents(l);
    var d := Contents(DeleteLine(l, n).buffer);
    assert d == c[..n - 1] + c[n..];
    if 1 <= k < n {
      assert d[k - 1] == c[k - 1];
    }
    if n <= k < |c| {
      assert d[k - 1] == c[k];
    }
  }

  /** Replacing line `n` changes that line only. */
  lemma {:induction false} ReplaceThenGet(l: Lines, n: int, text: string, k: int)
    requires 1 <= n <= |Contents(l)| && |CString(text)| > 0
    ensures LineCount(ReplaceLine(l, n, text).buffer) == LineCount(l)
    ensures GetLine(ReplaceLine(l, n, text).buffer, n).text == Stored(text)
    ensures 1 <= k <= |Contents(l)| && k != n ==>
              GetLine(ReplaceLine(l, n, text).buffer, k).text == GetLine(l, k).text
  {
  }

  /** The editor's own `is_number` (editor.c:10-17): every character is a decimal digit. */
  function EditorIsNumber(s: string): (b: bool)
    ensures b <==> forall k :: 0 <= k < |s| ==> IsDigit(s[k])
  {
    |s| == 0 || (IsDigit(s[0]) && EditorIsNumber(s[1..]))
  }

  /** The editor's test and the assembler's differ in exactly two ways: the editor accepts the
      empty string and refuses a leading minus sign. */
  lemma EditorNumbers(s: string)
    ensures EditorIsNumber(s) && |s| > 0 ==> IsNumber(s)
    ensures IsNumber(s) && !EditorIsNumber(s) ==> s[0] == '-'
    ensures EditorIsNumber("") && !IsNumber("")
    ensures IsNumber("-") && !EditorIsNumber("-")
  {
    assert IsNumber("-") by { LoneMinusIsNumber(); }
  }
}
