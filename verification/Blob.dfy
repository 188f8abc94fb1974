/** The blob form of array cells: an element count, then the elements from last to first,
    words in little-endian order or texts with their length in front. A character stands
    for a byte. */
module Blob {
  import opened Options
  import opened Decimal
  import opened CText
  import opened CdbTypes

  /** Elements read, and what is left of the blob. */
  datatype Read = Read(data: seq<string>, rest: string)

  const LONG_SIZE := 8
  const UINT := 0x1_0000_0000

  // ---- Words

  /** The low w bytes of n in two's complement, least significant first. */
  function LittleEndian(n: int, w: nat): (s: string)
    ensures |s| == w
    decreases w
  {
    if w == 0 then "" else [(n % 256) as char] + LittleEndian(n / 256, w - 1)
  }

  function FromLittleEndian(s: string): nat {
    if s == "" then 0 else (s[0] as int) % 256 + 256 * FromLittleEndian(s[1..])
  }

  function Pow256(w: nat): nat {
    if w == 0 then 1 else 256 * Pow256(w - 1)
  }

  lemma ByteFirst(n: int, w: nat)
    requires w > 0
    ensures FromLittleEndian(LittleEndian(n, w)) == n % 256 + 256 * FromLittleEndian(LittleEndian(n / 256, w - 1))
  {
    var s := LittleEndian(n, w);
    assert s[1..] == LittleEndian(n / 256, w - 1);
    assert s[0] as int == n % 256;
  }

  /** A word read as unsigned differs from the number written by a multiple of the range. */
  lemma {:induction false} LittleEndianCongruent(n: int, w: nat) returns (k: int)
    ensures FromLittleEndian(LittleEndian(n, w)) < Pow256(w)
    ensures n == FromLittleEndian(LittleEndian(n, w)) + k * Pow256(w)
    decreases w
  {
    if w == 0 {
      k := n;
    } else {
      hide LittleEndian, FromLittleEndian;
      k := LittleEndianCongruent(n / 256, w - 1);
      ByteFirst(n, w);
      Shifted(k, Pow256(w - 1));
    }
  }

  lemma Shifted(k: int, m: int)
    ensures k * (256 * m) == 256 * (k * m)
  {}

  lemma WordPowers()
    ensures Pow256(2) == 0x1_0000 && Pow256(4) == 0x1_0000_0000 && Pow256(8) == 0x1_0000_0000_0000_0000
  {
    assert Pow256(2) == 0x1_0000;
    assert Pow256(4) == 0x1_0000 * Pow256(2);
    assert Pow256(6) == 0x1_0000 * Pow256(4);
    assert Pow256(8) == 0x1_0000 * Pow256(6);
  }

  lemma Residue16(n: int, u: nat, k: int)
    requires u < 0x1_0000 && n == u + k * 0x1_0000
    ensures n % 0x1_0000 == u
  {}

  lemma Residue32(n: int, u: nat, k: int)
    requires u < 0x1_0000_0000 && n == u + k * 0x1_0000_0000
    ensures n % 0x1_0000_0000 == u
  {}

  lemma Residue64(n: int, u: nat, k: int)
    requires u < 0x1_0000_0000_0000_0000 && n == u + k * 0x1_0000_0000_0000_0000
    ensures n % 0x1_0000_0000_0000_0000 == u
  {}

  /** A word read back is the number written, as the word type holds it. */
  lemma WordReadBack(n: int, bits: nat)
    requires bits in {16, 32, 64}
    ensures Signed(FromLittleEndian(LittleEndian(n, bits / 8)), bits) == Signed(n, bits)
  {
    hide LittleEndian, FromLittleEndian, Pow256;
    WordPowers();
    var k := LittleEndianCongruent(n, bits / 8);
    var u := FromLittleEndian(LittleEndian(n, bits / 8));
    if bits == 16 {
      Residue16(n, u, k);
    } else if bits == 32 {
      Residue32(n, u, k);
    } else {
      Residue64(n, u, k);
    }
  }

  // ---- Element types

  /** The C library's conversions between texts and floating-point words, which the source
      calls and does not define. */
  datatype Floats = Floats(toFloat: string -> int, showFloat: nat -> string, toDouble: string -> int, showDouble: nat -> string)

  /** A word type: its width in bytes, the number a text becomes, the text bytes are shown as. */
  datatype WordForm = WordForm(width: nat, value: string -> int, text: nat -> string)

  function IntegerForm(bits: nat): WordForm
    requires bits in {16, 32, 64}
  {
    WordForm(bits / 8, (s: string) => Signed(Atol(s), bits), (u: nat) => Printed(Signed(u, bits)))
  }

  function FormOf(t: CdbType, fl: Floats): WordForm
    requires IsArray(t) && t != CdbArrayString
  {
    if t == CdbArrayFloat then WordForm(4, fl.toFloat, fl.showFloat)
    else if t == CdbArrayDouble then WordForm(8, fl.toDouble, fl.showDouble)
    else IntegerForm(Bits(t))
  }

  // ---- The written form

  function Words(ws: seq<int>, w: nat): string {
    if ws == [] then "" else LittleEndian(ws[0], w) + Words(ws[1..], w)
  }

  /** Words to write for the texts, last text first. */
  function WordsOf(data: seq<string>, form: WordForm): (ws: seq<int>)
    ensures |ws| == |data|
  {
    if data == [] then [] else [form.value(data[|data|-1])] + WordsOf(data[..|data|-1], form)
  }

  /** Texts with their lengths, last text first. */
  function Texts(data: seq<string>): string {
    if data == [] then ""
    else LittleEndian(|data[|data|-1]|, LONG_SIZE) + data[|data|-1] + Texts(data[..|data|-1])
  }

  function Encoded(data: seq<string>, t: CdbType, fl: Floats): string
    requires IsArray(t)
  {
    LittleEndian(|data|, LONG_SIZE) +
    if t == CdbArrayString then Texts(data) else Words(WordsOf(data, FormOf(t, fl)), FormOf(t, fl).width)
  }

  // ---- The read form; None where the program would read past the end

  /** Every element is inserted in front of those read before it. */
  function ReadWords(blob: string, n: nat, form: WordForm): Option<Read>
  {
    if n == 0 then Some(Read([], blob))
    else if |blob| < form.width then None
    else
      match ReadWords(blob[form.width..], n - 1, form)
      case None => None
      case Some(r) => Some(Read(r.data + [form.text(FromLittleEndian(blob[..form.width]))], r.rest))
  }

  function ReadTexts(blob: string, n: nat): Option<Read>
  {
    if n == 0 then Some(Read([], blob))
    else if |blob| < LONG_SIZE then None
    else
      var length := Signed(FromLittleEndian(blob[..LONG_SIZE]), 64);
      if length < 0 || LONG_SIZE + length > |blob| then None
      else
        match ReadTexts(blob[LONG_SIZE + length..], n - 1)
        case None => None
        case Some(r) => Some(Read(r.data + [blob[LONG_SIZE..LONG_SIZE + length]], r.rest))
  }

  /** The count is a long cut down to an unsigned int. */
  function Decoded(blob: string, t: CdbType, fl: Floats): Option<Read>
    requires IsArray(t)
  {
    if |blob| < LONG_SIZE then None
    else
      var size := FromLittleEndian(blob[..LONG_SIZE]) % UINT;
      if t == CdbArrayString then ReadTexts(blob[LONG_SIZE..], size)
      else ReadWords(blob[LONG_SIZE..], size, FormOf(t, fl))
  }

  // ---- Round trip

  /** What a text becomes on its way through a word. */
  function Reread(s: string, form: WordForm): string {
    form.text(FromLittleEndian(LittleEndian(form.value(s), form.width)))
  }

  function RereadAll(data: seq<string>, form: WordForm): (r: seq<string>)
    ensures |r| == |data| && forall i :: 0 <= i < |data| ==> r[i] == Reread(data[i], form)
  {
    seq(|data|, i requires 0 <= i < |data| => Reread(data[i], form))
  }

  /** For integers, the print of the number cut to the word. */
  lemma RereadInteger(s: string, bits: nat)
    requires bits in {16, 32, 64}
    ensures Reread(s, IntegerForm(bits)) == Printed(Signed(Atol(s), bits))
  {
    hide LittleEndian, FromLittleEndian, Signed, Printed, Atol;
    WordReadBack(Signed(Atol(s), bits), bits);
    SignedFits(Atol(s), bits);
    SignedFits(Signed(Atol(s), bits), bits);
  }

  lemma ReadWordsNext(word: string, more: string, n: nat, form: WordForm, r: Read)
    requires |word| == form.width && ReadWords(more, n, form) == Some(r)
    ensures ReadWords(word + more, n + 1, form) == Some(Read(r.data + [form.text(FromLittleEndian(word))], r.rest))
  {
    hide FromLittleEndian;
    assert (word + more)[..form.width] == word && (word + more)[form.width..] == more;
  }

  lemma {:induction false} WordsReadBack(data: seq<string>, form: WordForm, tail: string)
    ensures ReadWords(Words(WordsOf(data, form), form.width) + tail, |data|, form) == Some(Read(RereadAll(data, form), tail))
  {
    hide FromLittleEndian, LittleEndian, ReadWords;
    var w := form.width;
    if data == [] {
      assert Words([], w) + tail == tail;
      ReadNoWords(tail, form);
    } else {
      var front, last := data[..|data|-1], data[|data|-1];
      var word := form.value(last);
      var more := Words(WordsOf(front, form), w);
      WordsReadBack(front, form, tail);
      ReadWordsNext(LittleEndian(word, w), more + tail, |front|, form, Read(RereadAll(front, form), tail));
      WordsFirst(word, WordsOf(front, form), w);
      assert LittleEndian(word, w) + (more + tail) == Words(WordsOf(data, form), w) + tail;
      assert RereadAll(data, form) == RereadAll(front, form) + [Reread(last, form)];
    }
  }

  lemma ReadNoWords(blob: string, form: WordForm)
    ensures ReadWords(blob, 0, form) == Some(Read([], blob))
  {}

  lemma WordsFirst(word: int, ws: seq<int>, w: nat)
    ensures Words([word] + ws, w) == LittleEndian(word, w) + Words(ws, w)
  {
    hide LittleEndian;
  }

  lemma ReadTextsNext(text: string, more: string, n: nat, r: Read)
    requires |text| <= LONG_MAX && ReadTexts(more, n) == Some(r)
    ensures ReadTexts(LittleEndian(|text|, LONG_SIZE) + text + more, n + 1) == Some(Read(r.data + [text], r.rest))
  {
    hide Signed, FromLittleEndian, LittleEndian;
    var blob := LittleEndian(|text|, LONG_SIZE) + text + more;
    assert blob[..LONG_SIZE] == LittleEndian(|text|, LONG_SIZE);
    WordReadBack(|text|, 64);
    SignedFits(|text|, 64);
    assert blob[LONG_SIZE..LONG_SIZE + |text|] == text;
    assert blob[LONG_SIZE + |text|..] == more;
  }

  lemma {:induction false} TextsReadBack(data: seq<string>, tail: string)
    requires forall i :: 0 <= i < |data| ==> |data[i]| <= LONG_MAX
    ensures ReadTexts(Texts(data) + tail, |data|) == Some(Read(data, tail))
  {
    hide LittleEndian;
    if data == [] {
      assert Texts([]) + tail == tail;
    } else {
      var front, last := data[..|data|-1], data[|data|-1];
      TextsReadBack(front, tail);
      hide ReadTexts;
      ReadTextsNext(last, Texts(front) + tail, |front|, Read(front, tail));
      assert LittleEndian(|last|, LONG_SIZE) + last + (Texts(front) + tail) == Texts(data) + tail;
      assert data == front + [last];
    }
  }

  lemma CountReadBack(n: nat)
    requires n < UINT
    ensures FromLittleEndian(LittleEndian(n, LONG_SIZE)) == n
  {
    WordPowers();
    var k := LittleEndianCongruent(n, LONG_SIZE);
    assert k == 0;
  }

  /** A blob reads back to what its elements become as words, consuming exactly the bytes
      written: the reversal on writing and the insertion in front on reading cancel. */
  lemma {:induction false} BlobReadsBack(data: seq<string>, t: CdbType, fl: Floats, tail: string)
    requires IsArray(t) && |data| < UINT
    requires t == CdbArrayString ==> forall i :: 0 <= i < |data| ==> |data[i]| <= LONG_MAX
    ensures Decoded(Encoded(data, t, fl) + tail, t, fl)
            == Some(Read(if t == CdbArrayString then data else RereadAll(data, FormOf(t, fl)), tail))
  {
    hide Words, WordsOf, Texts, LittleEndian, FromLittleEndian, ReadWords, ReadTexts, RereadAll, FormOf;
    var body := if t == CdbArrayString then Texts(data) else Words(WordsOf(data, FormOf(t, fl)), FormOf(t, fl).width);
    var count := LittleEndian(|data|, LONG_SIZE);
    var blob := Encoded(data, t, fl) + tail;
    assert blob == count + body + tail;
    assert blob[..LONG_SIZE] == count && blob[LONG_SIZE..] == body + tail;
    CountReadBack(|data|);
    if t == CdbArrayString {
      TextsReadBack(data, tail);
    } else {
      WordsReadBack(data, FormOf(t, fl), tail);
    }
  }

  /** An element whose text survives the blob: any text; a canonical decimal the integer type
      can hold; a floating-point text that the conversions themselves give back. */
  predicate Lasting(s: string, t: CdbType, fl: Floats)
    requires IsArray(t)
  {
    t == CdbArrayString || if IsIntegerArray(t) then Canonical(s, Bits(t)) else Reread(s, FormOf(t, fl)) == s
  }

  lemma LastingExactly(s: string, t: CdbType, fl: Floats)
    requires IsArray(t) && t != CdbArrayString
    ensures Reread(s, FormOf(t, fl)) == s <==> Lasting(s, t, fl)
  {
    hide Reread, Canonical, Printed, Signed, Atol;
    if IsIntegerArray(t) {
      RereadInteger(s, Bits(t));
      RereadExactlyCanonical(s, Bits(t));
    }
  }

  /** An array survives the blob exactly when each of its elements does. */
  lemma {:induction false} BlobRoundTrip(data: seq<string>, t: CdbType, fl: Floats, tail: string)
    requires IsArray(t) && |data| < UINT
    requires t == CdbArrayString ==> forall i :: 0 <= i < |data| ==> |data[i]| <= LONG_MAX
    ensures Decoded(Encoded(data, t, fl) + tail, t, fl) == Some(Read(data, tail))
            <==> forall i :: 0 <= i < |data| ==> Lasting(data[i], t, fl)
  {
    hide Decoded, Encoded, Canonical, FormOf, Reread;
    BlobReadsBack(data, t, fl, tail);
    if t != CdbArrayString {
      hide Lasting;
      forall i | 0 <= i < |data|
        ensures Reread(data[i], FormOf(t, fl)) == data[i] <==> Lasting(data[i], t, fl)
      {
        LastingExactly(data[i], t, fl);
      }
      var r := RereadAll(data, FormOf(t, fl));
      assert r == data <==> forall i :: 0 <= i < |data| ==> r[i] == data[i];
    }
  }

  // ---- The loops

  lemma {:induction false} WordsOfAt(data: seq<string>, form: WordForm, k: nat)
    requires k < |data|
    ensures WordsOf(data, form)[k] == form.value(data[|data| - 1 - k])
  {
    if k > 0 {
      WordsOfAt(data[..|data|-1], form, k - 1);
    }
  }

  lemma {:induction false} WordsAppend(ws: seq<int>, x: int, w: nat)
    ensures Words(ws + [x], w) == Words(ws, w) + LittleEndian(x, w)
  {
    if ws != [] {
      WordsAppend(ws[1..], x, w);
      assert (ws + [x])[1..] == ws[1..] + [x];
    }
  }

  method MakeBlob(arr: array<int>, w: nat) returns (blob: string)
    ensures blob == LittleEndian(arr.Length, LONG_SIZE) + Words(arr[..], w)
  {
    hide LittleEndian;
    var bytes := "";
    var i := 0;
    while i < arr.Length
      invariant 0 <= i <= arr.Length
      invariant bytes == Words(arr[..i], w)
    {
      WordsAppend(arr[..i], arr[i], w);
      assert arr[..i+1] == arr[..i] + [arr[i]];
      bytes := bytes + LittleEndian(arr[i], w);
      i := i + 1;
    }
    assert arr[..i] == arr[..];
    blob := LittleEndian(arr.Length, LONG_SIZE) + bytes;
  }

  /** Write the elements from last to first. */
  method VectorToBlob(data: seq<string>, t: CdbType, fl: Floats) returns (blob: string)
    requires IsArray(t)
    ensures blob == Encoded(data, t, fl)
  {
    hide LittleEndian, FormOf;
    if t == CdbArrayString {
      blob := LittleEndian(|data|, LONG_SIZE);
      var i := |data|;
      assert data[..i] == data;
      while i > 0
        invariant 0 <= i <= |data|
        invariant blob + Texts(data[..i]) == Encoded(data, t, fl)
      {
        assert data[..i][..i-1] == data[..i-1];
        blob := blob + LittleEndian(|data[i-1]|, LONG_SIZE);
        blob := blob + data[i-1];
        i := i - 1;
      }
      assert blob + "" == blob;
    } else {
      var form := FormOf(t, fl);
      var arr := new int[|data|];
      var i := |data|;
      while i > 0
        invariant 0 <= i <= |data|
        invariant forall k :: 0 <= k < |data| - i ==> arr[k] == WordsOf(data, form)[k]
      {
        WordsOfAt(data, form, |data| - i);
        arr[|data| - i] := form.value(data[i-1]);
        i := i - 1;
      }
      assert arr[..] == WordsOf(data, form);
      blob := MakeBlob(arr, form.width);
    }
  }

  /** The result of reading on, with the elements read so far behind the new ones. */
  function Onto(r: Option<Read>, data: seq<string>): Option<Read> {
    match r
    case None => None
    case Some(x) => Some(Read(x.data + data, x.rest))
  }

  /** Advance through the blob and insert every element at the front. */
  method BlobToVector(blob: string, t: CdbType, fl: Floats) returns (ok: bool, data: seq<string>, pos: nat)
    requires IsArray(t)
    ensures ok <==> Decoded(blob, t, fl).Some?
    ensures ok ==> pos <= |blob| && Decoded(blob, t, fl) == Some(Read(data, blob[pos..]))
  {
    hide FromLittleEndian, Signed, FormOf;
    data, pos := [], LONG_SIZE;
    if |blob| < LONG_SIZE {
      return false, [], 0;
    }
    var size := FromLittleEndian(blob[..LONG_SIZE]) % UINT;
    var i := 0;
    if t == CdbArrayString {
      OntoNothing(ReadTexts(blob[pos..], size));
      while i < size
        invariant i <= size && pos <= |blob|
        invariant Decoded(blob, t, fl) == Onto(ReadTexts(blob[pos..], size - i), data)
      {
        if |blob| - pos < LONG_SIZE {
          return false, [], 0;
        }
        var length := Signed(FromLittleEndian(blob[pos..][..LONG_SIZE]), 64);
        if length < 0 || LONG_SIZE + length > |blob| - pos {
          return false, [], 0;
        }
        var more := blob[pos..];
        assert more[LONG_SIZE + length..] == blob[pos + LONG_SIZE + length..];
        OntoNext(ReadTexts(more[LONG_SIZE + length..], size - i - 1), more[LONG_SIZE..LONG_SIZE + length], data);
        data := [more[LONG_SIZE..LONG_SIZE + length]] + data;
        pos := pos + LONG_SIZE + length;
        i := i + 1;
      }
    } else {
      ok, data, pos := MakeVector(blob, pos, size, FormOf(t, fl));
      return;
    }
    assert [] + data == data;
    ok := true;
  }

  /** Words of a blob from `start` on, each printed and inserted at the front. */
  method MakeVector(blob: string, start: nat, size: nat, form: WordForm) returns (ok: bool, data: seq<string>, pos: nat)
    requires start <= |blob|
    ensures ok <==> ReadWords(blob[start..], size, form).Some?
    ensures ok ==> pos <= |blob| && ReadWords(blob[start..], size, form) == Some(Read(data, blob[pos..]))
  {
    hide FromLittleEndian;
    var w := form.width;
    data, pos := [], start;
    OntoNothing(ReadWords(blob[start..], size, form));
    var i := 0;
    while i < size
      invariant i <= size && pos <= |blob|
      invariant ReadWords(blob[start..], size, form) == Onto(ReadWords(blob[pos..], size - i, form), data)
    {
      if |blob| - pos < w {
        return false, [], 0;
      }
      var more := blob[pos..];
      var val := form.text(FromLittleEndian(more[..w]));
      assert more[w..] == blob[pos + w..];
      OntoNext(ReadWords(more[w..], size - i - 1, form), val, data);
      data := [val] + data;
      pos := pos + w;
      i := i + 1;
    }
    assert [] + data == data;
    ok := true;
  }

  lemma OntoNothing(r: Option<Read>)
    ensures Onto(r, []) == r
  {
    if r.Some? {
      assert r.value.data + [] == r.value.data;
    }
  }

  lemma OntoNext(r: Option<Read>, val: string, data: seq<string>)
    ensures r.None? ==> Onto(r, [val] + data) == None
    ensures r.Some? ==> Onto(Some(Read(r.value.data + [val], r.value.rest)), data) == Onto(r, [val] + data)
  {
    if r.Some? {
      assert r.value.data + [val] + data == r.value.data + ([val] + data);
    }
  }
}
