/**
 * Choice between the low- and high-resolution image of an element: only an
 * element drawn strictly larger than the threshold gets the high-resolution URL.
 */
module Resolution {

  /** The URL shown for an element whose rendered linear size is `renderedSize`. */
  function ChooseImage(renderedSize: real, threshold: real, lowRes: string, highRes: string): (url: string)
    ensures renderedSize > threshold ==> url == highRes
    ensures renderedSize <= threshold ==> url == lowRes
  {
    if renderedSize > threshold then highRes else lowRes
  }

  /** Growing an element never takes its high-resolution image away. */
  lemma HighResIsUpwardClosed(small: real, large: real, threshold: real, lowRes: string, highRes: string)
    requires small <= large
    requires ChooseImage(small, threshold, lowRes, highRes) == highRes
    ensures ChooseImage(large, threshold, lowRes, highRes) == highRes
  {
  }

  /** The high-resolution image is chosen exactly when the size is above the threshold. */
  lemma HighResIff(renderedSize: real, threshold: real, lowRes: string, highRes: string)
    requires lowRes != highRes
    ensures ChooseImage(renderedSize, threshold, lowRes, highRes) == highRes <==> renderedSize > threshold
  {
  }
}
