/** The inline keyboard builder. A row builder adds buttons to its own row
    list and attaches that list, by reference, to the keyboard when the row
    ends. The model keeps every row list the builder has handed out and the
    keyboard as the sequence of attached row lists, so a row list attached
    twice, or changed after attaching, shows so in the keyboard. */
module Keyboard {
  import opened Base
  import opened Model
  import CallbackPlugin

  /** A button: the text shown and the callback data sent when pressed. */
  datatype Button = Button(text: string, callbackData: string)

  /** The row lists handed out so far, by identity, and the keyboard: the
      identities of the attached row lists, in attach order. */
  datatype Builder = Builder(rows: seq<seq<Button>>, attached: seq<nat>)

  /** A row builder: the identity of the row list it fills. */
  datatype RowBuilder = RowBuilder(row: nat)

  /** Every attached identity names a row list. */
  predicate Valid(b: Builder) {
    forall i :: 0 <= i < |b.attached| ==> b.attached[i] < |b.rows|
  }

  /** A new builder: no rows, nothing attached. */
  function NewBuilder(): (r: Builder)
    ensures Valid(r) && Build(r) == []
  {
    Builder([], [])
  }

  /** The keyboard a markup built now holds: the current contents of the
      attached row lists, in attach order. */
  function Build(b: Builder): (r: seq<seq<Button>>)
    requires Valid(b)
    ensures |r| == |b.attached|
    ensures forall i :: 0 <= i < |r| ==> r[i] == b.rows[b.attached[i]]
  {
    seq(|b.attached|, i requires 0 <= i < |b.attached| => b.rows[b.attached[i]])
  }

  /** Starts a row: a new, empty row list that is not attached yet, so the
      keyboard is unchanged. */
  function Row(b: Builder): (r: (Builder, RowBuilder))
    requires Valid(b)
    ensures Valid(r.0) && r.1.row < |r.0.rows| && r.0.rows[r.1.row] == []
    ensures r.1.row !in b.attached
    ensures |r.0.rows| == |b.rows| + 1 && r.0.rows[..|b.rows|] == b.rows
    ensures Build(r.0) == Build(b)
  {
    var b' := Builder(b.rows + [[]], b.attached);
    (b', RowBuilder(|b.rows|))
  }

  /** Appends a button to the row builder's row list. Every attached copy of
      that list shows the button, in the keyboard as already built too;
      nothing else changes. */
  function AddButton(b: Builder, rb: RowBuilder, button: Button): (r: Builder)
    requires Valid(b) && rb.row < |b.rows|
    ensures Valid(r) && |r.rows| == |b.rows| && r.attached == b.attached
    ensures r.rows[rb.row] == b.rows[rb.row] + [button]
    ensures forall j :: 0 <= j < |b.rows| && j != rb.row ==> r.rows[j] == b.rows[j]
    ensures forall i :: 0 <= i < |b.attached| ==>
              Build(r)[i] == if b.attached[i] == rb.row then Build(b)[i] + [button] else Build(b)[i]
  {
    Builder(b.rows[rb.row := b.rows[rb.row] + [button]], b.attached)
  }

  /** The button with a callback key and data: its callback data is the key,
      ':' and the data. */
  function ButtonWithData(b: Builder, rb: RowBuilder, text: string, key: string, data: string): (r: Builder)
    requires Valid(b) && rb.row < |b.rows|
    ensures Valid(r) && r.attached == b.attached && |r.rows| == |b.rows|
    ensures r.rows[rb.row] == b.rows[rb.row] + [Button(text, key + [CallbackPlugin.DataDelimiter] + data)]
    ensures forall j :: 0 <= j < |b.rows| && j != rb.row ==> r.rows[j] == b.rows[j]
  {
    AddButton(b, rb, Button(text, key + [CallbackPlugin.DataDelimiter] + data))
  }

  /** The button with a callback key only: its callback data is the key. */
  function ButtonWithKey(b: Builder, rb: RowBuilder, text: string, key: string): (r: Builder)
    requires Valid(b) && rb.row < |b.rows|
    ensures Valid(r) && r.attached == b.attached && |r.rows| == |b.rows|
    ensures r.rows[rb.row] == b.rows[rb.row] + [Button(text, key)]
    ensures forall j :: 0 <= j < |b.rows| && j != rb.row ==> r.rows[j] == b.rows[j]
  {
    AddButton(b, rb, Button(text, key))
  }

  /** Ends a row: attaches the row builder's row list, as it is and as it
      will be, after the rows attached before. */
  function EndRow(b: Builder, rb: RowBuilder): (r: Builder)
    requires Valid(b) && rb.row < |b.rows|
    ensures Valid(r) && r.rows == b.rows
    ensures Build(r) == Build(b) + [b.rows[rb.row]]
  {
    Builder(b.rows, b.attached + [rb.row])
  }

  /** Ending a row twice attaches the same row list twice. */
  lemma EndRowTwice(b: Builder, rb: RowBuilder)
    requires Valid(b) && rb.row < |b.rows|
    ensures Build(EndRow(EndRow(b, rb), rb)) == Build(b) + [b.rows[rb.row], b.rows[rb.row]]
  {
  }

  /** A button added after its row has ended still shows in the keyboard. */
  lemma ButtonAfterEndRow(text: string, key: string)
    ensures var (b, rb) := Row(NewBuilder());
            Build(ButtonWithKey(EndRow(b, rb), rb, text, key)) == [[Button(text, key)]]
  {
    var (b, rb) := Row(NewBuilder());
    var e := EndRow(b, rb);
    assert Build(e) == [[]];
    var r := ButtonWithKey(e, rb, text, key);
    assert Build(r)[0] == [Button(text, key)];
  }

  /** Round trip: pressing a button made with a non-empty key without ':'
      sends data whose callback key is that key, with data or without, so a
      callback declaration of that key matches the press. */
  lemma ButtonKeyRoundTrip(key: string, data: string)
    requires key != [] && CallbackPlugin.DataDelimiter !in key
    ensures CallbackPlugin.ExtractCallbackKey(CallbackPlugin.CallbackUpdate(key + [CallbackPlugin.DataDelimiter] + data)) == Ok(key)
    ensures CallbackPlugin.ExtractCallbackKey(CallbackPlugin.CallbackUpdate(key)) == Ok(key)
    ensures CallbackPlugin.Match(Some(key), CallbackPlugin.CallbackUpdate(key + [CallbackPlugin.DataDelimiter] + data)) == Ok(true)
    ensures CallbackPlugin.Match(Some(key), CallbackPlugin.CallbackUpdate(key)) == Ok(true)
  {
    CallbackPlugin.KeyOfEncoded(key, data);
    CallbackPlugin.KeyOfPlain(key);
  }

  /** One row holding "Next" with key "next-page" and data "42" and then
      "Previous" with key "prev-page". */
  lemma NextPreviousRow()
    ensures var (b, rb) := Row(NewBuilder());
            var b1 := ButtonWithData(b, rb, "Next", "next-page", "42");
            var b2 := ButtonWithKey(b1, rb, "Previous", "prev-page");
            Build(EndRow(b2, rb)) == [[Button("Next", "next-page" + ":" + "42"), Button("Previous", "prev-page")]]
  {
    var (b, rb) := Row(NewBuilder());
    var next := Button("Next", "next-page" + ":" + "42");
    var previous := Button("Previous", "prev-page");
    var b1 := ButtonWithData(b, rb, "Next", "next-page", "42");
    assert b1.rows[rb.row] == [next];
    var b2 := ButtonWithKey(b1, rb, "Previous", "prev-page");
    assert b2.rows[rb.row] == [next, previous];
    assert Build(EndRow(b2, rb)) == Build(b2) + [[next, previous]];
  }
}
