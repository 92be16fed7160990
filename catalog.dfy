/** The fixed, ordered list of sponsorship options the page offers. */
module Catalog {

  /**
   * A price: a fixed number of yuan, or the `'custom'` tag, which carries no
   * number. The source types the field as any number or any string; this type
   * admits only natural numbers and the one string the catalog uses.
   */
  datatype Amount = Fixed(yuan: nat) | Custom

  /**
   * One sponsorship tier. `image` is an opaque asset path handed to the image
   * component; `description` is the price text shown on the card and in the
   * dialog title.
   */
  datatype SponsorOption = SponsorOption(amount: Amount, labelText: string, image: string, description: string)

  /** The catalog, in display order. */
  const Options: seq<SponsorOption> := [
    SponsorOption(Fixed(5), "入门支持", "/5.png", "¥5"),
    SponsorOption(Fixed(10), "进阶支持", "/10.png", "¥10"),
    SponsorOption(Fixed(20), "标准支持", "/20.png", "¥20"),
    SponsorOption(Fixed(50), "高级支持", "/50.png", "¥50"),
    SponsorOption(Custom, "任意金额", "/xx.png", "自定义")
  ]

  /**
   * The shape of the catalog: five entries, labels and images pairwise
   * distinct, the custom amount only in the last entry, and the fixed amounts
   * 5, 10, 20, 50 in strictly ascending order.
   */
  lemma CatalogShape()
    ensures |Options| == 5
    ensures forall i, j :: 0 <= i < j < |Options| ==> Options[i].labelText != Options[j].labelText
    ensures forall i, j :: 0 <= i < j < |Options| ==> Options[i].image != Options[j].image
    ensures Options[|Options| - 1].amount == Custom
    ensures forall i :: 0 <= i < |Options| - 1 ==> Options[i].amount.Fixed?
    ensures [Options[0].amount.yuan, Options[1].amount.yuan,
             Options[2].amount.yuan, Options[3].amount.yuan] == [5, 10, 20, 50]
    ensures forall i, j :: 0 <= i < j < |Options| - 1 ==>
              Options[i].amount.yuan < Options[j].amount.yuan
  {
  }
}
