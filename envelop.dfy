/** A `Letter` put in an `Envelop` and taken out again with `Into`. */
module Envelop {
  /** `Letter`; the derived `PartialEq` compares the four fields. */
  datatype Letter = Letter(typ: string, msg: string, from: string, to: string)

  /** `Envelop`: its own type label and the letter it holds. */
  datatype Envelop = Envelop(typ: string, data: Letter)

  /** `Envelop::new`. */
  function New(typ: string, data: Letter): (e: Envelop)
    ensures e.typ == typ && e.data == data
  {
    Envelop(typ, data)
  }

  /** `Into<Letter> for Envelop`: the letter, with the envelope's label
      dropped; the label and the letter together rebuild the envelope. */
  function Into(e: Envelop): (l: Letter)
    ensures New(e.typ, l) == e
  {
    e.data
  }

  /** A letter comes back out of any envelope unchanged, whatever the
      envelope's label, as the `assert_eq!` of `main` checks. */
  lemma IntoNew(typ: string, l: Letter)
    ensures Into(New(typ, l)) == l
  {
  }

  /** The envelope's label is lost: two envelopes that differ only in it
      give the same letter. */
  lemma IntoForgetsTyp(typ1: string, typ2: string, l: Letter)
    ensures typ1 != typ2 ==> New(typ1, l) != New(typ2, l)
    ensures Into(New(typ1, l)) == Into(New(typ2, l))
  {
  }

  /** Letters are equal exactly when their four fields are. */
  lemma LetterEquality(a: Letter, b: Letter)
    ensures a == b <==> a.typ == b.typ && a.msg == b.msg && a.from == b.from && a.to == b.to
  {
  }

  /** `main`: the letter's own type is kept and the envelope's differs. */
  lemma MainLetter()
    ensures var letter1 := Letter("Very important letter", "Hello there!", "joe", "john");
            var envelop := New("Very import letter", letter1);
            Into(envelop) == letter1 && envelop.typ != letter1.typ
  {
  }
}
