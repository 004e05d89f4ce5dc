/** The calls one view makes on another (`plots[name].update(plots, data)`),
    recorded as values so that each event handler can return what it asks
    the other views to do. */
module Views {
  import opened JsValues

  /** The second element of the data the scatterplot receives. The
      dashboard sends either an action name or an array of features. */
  datatype ScatterAction =
    | ActionText(text: string)
    | ActionFeatures(features: seq<Feature>)
    | ActionUndefined

  /** The first element of the data the detail panel receives: `undefined`,
      an array of features or a single feature object. */
  datatype Selection =
    | NothingSelected
    | SelectedArray(items: seq<Feature>)
    | SelectedFeature(feature: Feature)

  datatype ViewCall =
    | DateSelectionUpdate(features: seq<Feature>)
    | GeoMapUpdate(features: seq<Feature>)
    | ScatterUpdate(features: seq<Feature>, action: ScatterAction, xLabel: string, yLabel: string)
    | DetailUpdate(selection: Selection, tsunamis: seq<Feature>)
}
