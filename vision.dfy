/** The images, tensors and models that the core hands to OpenCV and Keras,
    and those foreign calls themselves, which the model takes as functions. */
module Vision {

  type Byte = x: int | 0 <= x < 256

  /** A colour pixel as OpenCV stores it (blue, green, red). */
  datatype Bgr = Bgr(b: Byte, g: Byte, r: Byte)

  /** A video frame or a face cut out of one: rows of pixels. */
  type Image = seq<seq<Bgr>>

  /** A single-channel 8-bit image: rows of intensities. */
  type Gray = seq<seq<Byte>>

  /** A face rectangle `(x, y, w, h)` as `detectMultiScale` reports it. */
  datatype Box = Box(x: nat, y: nat, w: nat, h: nat)

  /** The number of emotion classes every classifier scores. */
  const NumEmotions: nat := 7

  /** One classifier output, `model.predict(face)[0]`: one score per class. */
  type Prediction = p: seq<real> | |p| == NumEmotions
    witness [0.0, 0.0, 0.0, 0.0, 0.0, 0.0, 0.0]

  /** A loaded Keras model: the file it came from and its `input_shape`,
      whose first entry is the batch dimension. */
  datatype Model = Model(path: string, inputShape: seq<nat>)

  /** The array given to `predict`: its shape and its scaled intensities. */
  datatype Tensor = Tensor(shape: seq<nat>, pixels: seq<seq<real>>)

  /** The foreign calls. `grayResize(img, w, h)` is `cv2.cvtColor` to gray
      followed by `cv2.resize(gray, (w, h))`; `predict(m, t)` is
      `m.predict(t)[0]`; `detectFaces(frame)` is the Haar cascade's
      `detectMultiScale(gray, 1.1, 5)`. */
  datatype Backend = Backend(
    grayResize: (Image, nat, nat) -> Gray,
    predict: (Model, Tensor) -> Prediction,
    detectFaces: Image -> seq<Box>)
}
