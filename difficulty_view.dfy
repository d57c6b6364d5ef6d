/**
 * The browser's difficulty display helpers (`getDifficultyLabel`,
 * `visualizeDifficulty`): a label, a colour and a bar width.
 */
module DifficultyView {
  import opened Adaptive
  import AiEngine

  /** `getDifficultyLabel`, with its own thresholds 1.5, 2.5 and 3.5. */
  function DifficultyLabel(d: Tenths): string
  {
    if d < 15 then "Beginner"
    else if d < 25 then "Intermediate"
    else if d < 35 then "Advanced"
    else "Expert"
  }

  /** The label of each of the backend's bands. */
  function LevelLabel(l: AiEngine.Level): string
  {
    match l
    case Beginner => "Beginner"
    case Intermediate => "Intermediate"
    case Advanced => "Advanced"
    case Expert => "Expert"
  }

  /** The browser label and the backend description always name the same band. */
  lemma LabelMatchesDescription(d: Tenths)
    ensures DifficultyLabel(d) == LevelLabel(AiEngine.LevelOf(d))
  {
  }

  datatype Colour = Green | Orange | Red
  {
    function Hex(): string
    {
      match this
      case Green => "#10b981"
      case Orange => "#f59e0b"
      case Red => "#ef4444"
    }
  }

  /** The bar colour: green below 2.0, orange below 3.5, red from 3.5 on. */
  function ColourOf(d: Tenths): (c: Colour)
    ensures c == Green <==> d < 20
    ensures c == Orange <==> 20 <= d < 35
    ensures c == Red <==> 35 <= d
  {
    if d < 20 then Green else if d < 35 then Orange else Red
  }

  /** The colour changes at 2.0 where the label does not, and the label changes at 1.5 and 2.5 where the colour does not. */
  lemma ColourBoundsDifferFromLabels()
    ensures DifficultyLabel(19) == DifficultyLabel(20) && ColourOf(19) != ColourOf(20)
    ensures DifficultyLabel(14) != DifficultyLabel(15) && ColourOf(14) == ColourOf(15)
    ensures DifficultyLabel(24) != DifficultyLabel(25) && ColourOf(24) == ColourOf(25)
  {
  }

  datatype Visualization = Visualization(percentage: real, colour: Colour, levelName: string)

  /** `visualizeDifficulty`: the width is difficulty / 5.0 * 100 percent. */
  function Visualize(d: Tenths): (v: Visualization)
    ensures v.levelName == DifficultyLabel(d) && v.colour == ColourOf(d)
  {
    Visualization((d as real / 10.0) / 5.0 * 100.0, ColourOf(d), DifficultyLabel(d))
  }

  /** For an in-range difficulty the bar is between 20 % and 100 % wide, two percent per tenth. */
  lemma VisualizePercentage(d: Tenths)
    requires InRange(d)
    ensures Visualize(d).percentage == 2.0 * d as real
    ensures 20.0 <= Visualize(d).percentage <= 100.0
  {
  }

  /** A harder difficulty never gets a narrower bar. */
  lemma VisualizeMonotone(d1: Tenths, d2: Tenths)
    requires d1 <= d2
    ensures Visualize(d1).percentage <= Visualize(d2).percentage
  {
  }
}
